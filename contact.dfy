/** The contact page: the alphabetical list with its letter sections, the checks of the
    contact form, the initials a contact is given, and the saving of new and edited
    contacts. */
module ContactPage {
  import opened Common
  import opened Entities
  import opened Storage

  // ---------------------------------------------------------------- order by name

  /** The order the list is sorted in: code-unit by code-unit, a prefix first. */
  predicate NameLeq(a: string, b: string)
  {
    if a == [] then true
    else if b == [] then false
    else if a[0] != b[0] then a[0] < b[0]
    else NameLeq(a[1..], b[1..])
  }

  lemma {:induction false} NameLeqTotal(a: string, b: string)
    ensures NameLeq(a, b) || NameLeq(b, a)
  {
    if a != [] && b != [] && a[0] == b[0] {
      NameLeqTotal(a[1..], b[1..]);
    }
  }

  lemma {:induction false} NameLeqTransitive(a: string, b: string, c: string)
    requires NameLeq(a, b) && NameLeq(b, c)
    ensures NameLeq(a, c)
  {
    if a != [] && b != [] && c != [] && a[0] == b[0] && b[0] == c[0] {
      NameLeqTransitive(a[1..], b[1..], c[1..]);
    }
  }

  predicate SortedByName(s: seq<Contact>)
  {
    forall i, j :: 0 <= i < j < |s| ==> NameLeq(s[i].name, s[j].name)
  }

  /** Places a contact before the first one whose name it does not follow. */
  function InsertByName(c: Contact, s: seq<Contact>): (r: seq<Contact>)
    ensures multiset(r) == multiset(s) + multiset{c}
    ensures |r| == |s| + 1
    ensures forall x :: x in r <==> x == c || x in s
  {
    if s == [] then [c]
    else if NameLeq(c.name, s[0].name) then [c] + s
    else
      assert s == [s[0]] + s[1..];
      [s[0]] + InsertByName(c, s[1..])
  }

  lemma SortedTail(s: seq<Contact>)
    requires s != [] && SortedByName(s)
    ensures SortedByName(s[1..])
    ensures forall x :: x in s[1..] ==> NameLeq(s[0].name, x.name)
  {
    var tail := s[1..];
    forall i, j | 0 <= i < j < |tail| ensures NameLeq(tail[i].name, tail[j].name) {
      assert tail[i] == s[i + 1] && tail[j] == s[j + 1];
    }
    forall x | x in tail ensures NameLeq(s[0].name, x.name) {
      var k :| 0 <= k < |tail| && tail[k] == x;
      assert tail[k] == s[k + 1];
    }
  }

  /** Putting a head before a sorted list keeps it sorted when the head comes first. */
  lemma ConsSorted(h: Contact, s: seq<Contact>)
    requires SortedByName(s)
    requires forall x :: x in s ==> NameLeq(h.name, x.name)
    ensures SortedByName([h] + s)
  {
    var r := [h] + s;
    forall i, j | 0 <= i < j < |r| ensures NameLeq(r[i].name, r[j].name) {
      assert r[j] == s[j - 1] && r[j] in s;
      if i > 0 { assert r[i] == s[i - 1]; }
    }
  }

  lemma {:induction false} InsertKeepsSorted(c: Contact, s: seq<Contact>)
    requires SortedByName(s)
    ensures SortedByName(InsertByName(c, s))
  {
    if s == [] {
      assert InsertByName(c, s) == [c];
    } else if NameLeq(c.name, s[0].name) {
      SortedTail(s);
      forall x | x in s ensures NameLeq(c.name, x.name) {
        if x != s[0] {
          assert x in s[1..] by { assert s == [s[0]] + s[1..]; }
          NameLeqTransitive(c.name, s[0].name, x.name);
        }
      }
      ConsSorted(c, s);
    } else {
      SortedTail(s);
      InsertKeepsSorted(c, s[1..]);
      NameLeqTotal(c.name, s[0].name);
      ConsSorted(s[0], InsertByName(c, s[1..]));
    }
  }

  /** `contacts.sort((a, b) => a.name.localeCompare(b.name))`, as an insertion sort that
      places each contact before the later ones with an equal name, so the order of equal
      names is kept as a stable sort keeps it. */
  function SortByName(s: seq<Contact>): (r: seq<Contact>)
    ensures multiset(r) == multiset(s)
    ensures |r| == |s|
  {
    if s == [] then []
    else
      assert s == [s[0]] + s[1..];
      InsertByName(s[0], SortByName(s[1..]))
  }

  /** The sorted list is in name order. */
  lemma {:induction false} SortByNameSorted(s: seq<Contact>)
    ensures SortedByName(SortByName(s))
  {
    if s != [] {
      SortByNameSorted(s[1..]);
      InsertKeepsSorted(s[0], SortByName(s[1..]));
    }
  }

  // ---------------------------------------------------------------- letter sections

  const ALPHABET := "ABCDEFGHIJKLMNOPQRSTUVWXYZ"

  /** The contacts listed under one letter: those whose upper-cased name starts with it. */
  function Group(contacts: seq<Contact>, letter: char): (r: seq<Contact>)
    ensures forall c :: c in r <==> c in contacts && StartsWith(Upper(c.name), [letter])
  {
    Filter(contacts, (c: Contact) => StartsWith(Upper(c.name), [letter]))
  }

  /** A letter header and the contacts listed under it. */
  datatype Section = Section(letter: char, members: seq<Contact>)

  /** The sections of the list for the given letters, in letter order; a letter with no
      contact gets no header. */
  function Sections(contacts: seq<Contact>, letters: string): (r: seq<Section>)
    ensures forall k :: 0 <= k < |r| ==>
              r[k].letter in letters && r[k].members != [] && r[k].members == Group(contacts, r[k].letter)
    ensures forall l :: l in letters && Group(contacts, l) != [] ==>
              exists k :: 0 <= k < |r| && r[k].letter == l
  {
    if letters == [] then []
    else
      var init := letters[..|letters| - 1];
      var last := letters[|letters| - 1];
      var rest := Sections(contacts, init);
      assert forall l :: l in letters <==> l in init || l == last by {
        assert letters == init + [last];
      }
      var group := Group(contacts, last);
      if group == [] then rest
      else
        var r := rest + [Section(last, group)];
        assert r[|r| - 1].letter == last;
        assert forall k :: 0 <= k < |rest| ==> r[k] == rest[k];
        r
  }

  /** A contact is listed under a letter of the alphabet exactly when its upper-cased
      name starts with that letter; a name starting with anything else is not listed. */
  lemma ListedIff(contacts: seq<Contact>, c: Contact, l: char)
    requires c in contacts && l in ALPHABET
    ensures (exists k :: 0 <= k < |Sections(contacts, ALPHABET)|
               && Sections(contacts, ALPHABET)[k].letter == l
               && c in Sections(contacts, ALPHABET)[k].members)
            <==> StartsWith(Upper(c.name), [l])
  {
    var r := Sections(contacts, ALPHABET);
    if StartsWith(Upper(c.name), [l]) {
      assert c in Group(contacts, l);
      var k :| 0 <= k < |r| && r[k].letter == l;
      assert c in r[k].members;
    }
  }

  /** `displayContacts`: with the list container on the page, the contact array is sorted
      in place and the list is drawn letter by letter; without it nothing happens. */
  method DisplayContacts(store: Store, hasContainer: bool) returns (listing: seq<Section>)
    modifies store`contacts
    ensures !hasContainer ==> store.contacts == old(store.contacts) && listing == []
    ensures hasContainer ==> store.contacts == SortByName(old(store.contacts))
                             && listing == Sections(store.contacts, ALPHABET)
  {
    listing := [];
    if !hasContainer {
      return;
    }
    var sorted := SortByName(store.contacts);
    store.contacts := sorted;
    listing := ListSections(sorted, ALPHABET);
  }

  /** The letter loop of `displayContacts`: a header and its group for each letter whose
      group is not empty, in letter order. */
  method ListSections(contacts: seq<Contact>, letters: string) returns (listing: seq<Section>)
    ensures listing == Sections(contacts, letters)
  {
    listing := [];
    assert letters[..0] == [];
    for i := 0 to |letters|
      invariant listing == Sections(contacts, letters[..i])
    {
      SectionsStep(contacts, letters, i);
      var group := Group(contacts, letters[i]);
      if group != [] {
        listing := listing + [Section(letters[i], group)];
      }
    }
    assert letters[..|letters|] == letters;
  }

  /** One more letter adds its section, when its group is not empty. */
  lemma SectionsStep(contacts: seq<Contact>, letters: string, i: nat)
    requires i < |letters|
    ensures Sections(contacts, letters[..i + 1])
            == Sections(contacts, letters[..i])
               + (if Group(contacts, letters[i]) == [] then [] else [Section(letters[i], Group(contacts, letters[i]))])
  {
    var l := letters[..i + 1];
    assert l[..|l| - 1] == letters[..i];
    assert l[|l| - 1] == letters[i];
  }

  // ---------------------------------------------------------------- the contact form

  predicate IsWordChar(c: char)
  {
    'A' <= c <= 'Z' || 'a' <= c <= 'z' || '0' <= c <= '9' || c == '_' || c == '-' || c == '.'
  }

  predicate IsAsciiLetter(c: char)
  {
    'A' <= c <= 'Z' || 'a' <= c <= 'z'
  }

  predicate AllWord(s: string)
  {
    forall i :: 0 <= i < |s| ==> IsWordChar(s[i])
  }

  predicate AllLetters(s: string)
  {
    forall i :: 0 <= i < |s| ==> IsAsciiLetter(s[i])
  }

  /** The pattern `^([A-Za-z0-9_\-\.])+\@([A-Za-z0-9_\-\.])+\.([A-Za-z]{2,4})$`: some '@'
      and some later '.' cut the text into a non-empty name, a non-empty domain and a
      final part of two to four letters. */
  ghost predicate EmailPattern(s: string)
  {
    exists at, dot :: 1 <= at && at + 1 < dot < |s| && s[at] == '@' && s[dot] == '.'
      && AllWord(s[..at]) && AllWord(s[at + 1..dot])
      && 2 <= |s| - dot - 1 <= 4 && AllLetters(s[dot + 1..])
  }

  /** The index of the last '.', if any. */
  function LastDot(s: string): (r: Option<nat>)
    ensures r.None? <==> '.' !in s
    ensures r.Some? ==> r.value < |s| && s[r.value] == '.' && '.' !in s[r.value + 1..]
  {
    if s == [] then None
    else if s[|s| - 1] == '.' then Some(|s| - 1)
    else
      var r := LastDot(s[..|s| - 1]);
      assert forall c :: c in s <==> c in s[..|s| - 1] || c == s[|s| - 1] by {
        assert s == s[..|s| - 1] + [s[|s| - 1]];
      }
      if r.Some? then
        assert s[r.value + 1..] == s[..|s| - 1][r.value + 1..] + [s[|s| - 1]];
        r
      else r
  }

  /** `validateEmail`, decided without search: the '@' must be the first one, and the dot
      before the final letters the last one. */
  function ValidateEmail(s: string): (ok: bool)
    ensures ok <==> EmailPattern(s)
  {
    if '@' !in s || '.' !in s then
      assert !EmailPattern(s) by { NoPatternWithout(s); }
      false
    else
      var at := IndexOf(s, '@');
      var dot := LastDot(s).value;
      var ok := 1 <= at && at + 1 < dot && AllWord(s[..at]) && AllWord(s[at + 1..dot])
                && 2 <= |s| - dot - 1 <= 4 && AllLetters(s[dot + 1..]);
      assert ok ==> EmailPattern(s);
      assert EmailPattern(s) ==> ok by {
        if EmailPattern(s) { PatternAtFirstAtLastDot(s, at, dot); }
      }
      ok
  }

  lemma NoPatternWithout(s: string)
    requires '@' !in s || '.' !in s
    ensures !EmailPattern(s)
  {
    forall at, dot | 0 <= at < |s| && 0 <= dot < |s|
      ensures !(s[at] == '@' && s[dot] == '.')
    {
      assert s[at] in s && s[dot] in s;
    }
  }

  /** A text the pattern matches is cut by its first '@' and its last '.'. */
  lemma PatternAtFirstAtLastDot(s: string, at: nat, dot: nat)
    requires EmailPattern(s)
    requires at < |s| && s[at] == '@' && '@' !in s[..at]
    requires dot < |s| && s[dot] == '.' && '.' !in s[dot + 1..]
    ensures 1 <= at && at + 1 < dot && AllWord(s[..at]) && AllWord(s[at + 1..dot])
            && 2 <= |s| - dot - 1 <= 4 && AllLetters(s[dot + 1..])
  {
    var at', dot' :| 1 <= at' && at' + 1 < dot' < |s| && s[at'] == '@' && s[dot'] == '.'
      && AllWord(s[..at']) && AllWord(s[at' + 1..dot'])
      && 2 <= |s| - dot' - 1 <= 4 && AllLetters(s[dot' + 1..]);
    PatternCuts(s, at', dot', at, dot);
  }

  lemma PatternCuts(s: string, at': nat, dot': nat, at: nat, dot: nat)
    requires 1 <= at' && at' + 1 < dot' < |s| && s[at'] == '@' && s[dot'] == '.'
    requires AllWord(s[..at']) && AllLetters(s[dot' + 1..])
    requires at < |s| && s[at] == '@' && '@' !in s[..at]
    requires dot < |s| && s[dot] == '.' && '.' !in s[dot + 1..]
    ensures at == at' && dot == dot'
  {
    assert forall i :: 0 <= i < at' ==> IsWordChar(s[i]) by {
      forall i | 0 <= i < at' ensures IsWordChar(s[i]) { assert s[..at'][i] == s[i]; }
    }
    assert forall i :: dot' < i < |s| ==> IsAsciiLetter(s[i]) by {
      forall i | dot' < i < |s| ensures IsAsciiLetter(s[i]) { assert s[dot' + 1..][i - dot' - 1] == s[i]; }
    }
    assert forall i :: 0 <= i < at ==> s[i] != '@' by {
      forall i | 0 <= i < at ensures s[i] != '@' { assert s[..at][i] == s[i]; }
    }
    assert forall i :: dot < i < |s| ==> s[i] != '.' by {
      forall i | dot < i < |s| ensures s[i] != '.' { assert s[dot + 1..][i - dot - 1] == s[i]; }
    }
  }

  /** The example the error message gives passes. */
  lemma ExampleEmailAccepted()
    ensures ValidateEmail("example@mail.com")
  {
    var s := "example@mail.com";
    assert s[7] == '@' && s[12] == '.';
    assert s[..7] == "example" && s[8..12] == "mail" && s[13..] == "com";
    assert AllWord(s[..7]) && AllWord(s[8..12]) && AllLetters(s[13..]);
  }

  /** A one-letter final part is refused. */
  lemma OneLetterEndingRejected()
    ensures !ValidateEmail("a@b.c")
  {
    var s := "a@b.c";
    assert s[1] == '@' && s[..1] == "a";
    assert IndexOf(s, '@') == 1;
    assert s[3] == '.' && s[4..] == "c";
    assert LastDot(s) == Some(3);
  }

  /** The outcome of `validateForm`: overall validity and which of the three error
      messages are shown. */
  datatype FormCheck = FormCheck(valid: bool, nameError: bool, emailError: bool, phoneError: bool)

  /** `validateForm`: every field is checked, with no early exit; the name and phone must
      not be blank once trimmed, and the email must match the pattern untrimmed. */
  function ValidateForm(name: string, email: string, phone: string): (r: FormCheck)
    ensures r.nameError <==> AllWhitespace(name)
    ensures r.emailError <==> !EmailPattern(email)
    ensures r.phoneError <==> AllWhitespace(phone)
    ensures r.valid <==> !r.nameError && !r.emailError && !r.phoneError
  {
    var nameError := Trim(name) == "";
    var emailError := !ValidateEmail(email);
    var phoneError := Trim(phone) == "";
    FormCheck(!nameError && !emailError && !phoneError, nameError, emailError, phoneError)
  }

  // ---------------------------------------------------------------- initials

  /** `name.split(' ').map(n => n[0]).join('')`, as `saveContact` and `saveEditContact`
      compute it: no upper-casing. */
  function ContactInitials(name: string): (r: string)
    ensures |r| <= |name| + 1
    ensures ' ' !in r
  {
    var words := Split(name, ' ');
    SplitSize(name, ' ');
    FirstChars(words)
  }

  /** A name of non-empty words separated by single spaces has one initial per word: the
      first character of that word, as typed. */
  lemma InitialsOfWords(words: seq<string>)
    requires words != []
    requires forall i :: 0 <= i < |words| ==> words[i] != [] && ' ' !in words[i]
    ensures ContactInitials(Join(words, " ")) == seq(|words|, i requires 0 <= i < |words| => words[i][0])
  {
    SplitJoin(words);
    FirstCharsOfNonEmpty(words);
  }

  // ---------------------------------------------------------------- saving

  function ContactsPath(userId: Option<string>): string
  {
    "/users/" + JsText(userId) + "/contacts"
  }

  /** The record `saveContact` posts: the typed fields, the initials and a colour of the
      palette. */
  function NewContact(name: string, email: string, phone: string, color: string): (c: Contact)
    ensures c.name == name && c.email == email && c.phone == phone
    ensures c.initials == ContactInitials(name) && c.profileColor == color && c.id == ""
  {
    Contact("", name, email, phone, ContactInitials(name), color)
  }

  /** `saveContact`: an invalid form stops before any request; otherwise the new contact
      is posted under the resolved user (the path reads "null" when nobody matches, since
      nothing guards it), with a colour from the palette; `pick` stands for the random
      choice. */
  method SaveContact(store: Store, name: string, email: string, phone: string,
                     palette: seq<string>, pick: nat, ls: LocalStorage, server: Server, codec: Codec)
    returns (posted: bool)
    requires pick < |palette|
    modifies store`users, store`writes
    ensures !ValidateForm(name, email, phone).valid ==>
              !posted && store.users == old(store.users) && store.writes == old(store.writes)
    ensures ValidateForm(name, email, phone).valid ==>
              posted && store.users == Keyed(server.users, UserWithId)
              && store.writes == old(store.writes)
                 + [Write(Post, ContactsPath(ResolveUserId(store.users, ls.items, codec)),
                          ContactBody(NewContact(name, email, phone, palette[pick])))]
  {
    if !ValidateForm(name, email, phone).valid {
      return false;
    }
    var color := palette[pick];
    var userId := store.GetUserId(ls, server, codec);
    store.writes := store.writes + [Write(Post, ContactsPath(userId), ContactBody(NewContact(name, email, phone, color)))];
    posted := true;
  }

  /** `getContactById`: the contacts are fetched only when the array is empty (a failed
      fetch throws, `ok` false); then the first contact with the id, if any. */
  method GetContactById(store: Store, contactId: string, ls: LocalStorage, server: Server, codec: Codec)
    returns (ok: bool, found: Option<Contact>)
    modifies store`users, store`contacts
    ensures old(store.contacts) != [] ==>
              ok && store.contacts == old(store.contacts) && store.users == old(store.users)
    ensures old(store.contacts) == [] ==> store.users == Keyed(server.users, UserWithId)
    ensures old(store.contacts) == [] ==> (ok <==> ResolveUserId(store.users, ls.items, codec).Some?)
    ensures old(store.contacts) == [] && ok ==>
              store.contacts == Keyed(Entries(server.contacts, ResolveUserId(store.users, ls.items, codec).value), ContactWithId)
    ensures ok ==> found == FindContactById(store.contacts, contactId)
    ensures !ok ==> found.None? && old(store.contacts) == [] && store.contacts == []
  {
    if store.contacts == [] {
      ok := store.RefreshContacts(ls, server, codec);
      if !ok {
        return false, None;
      }
    }
    ok := true;
    found := FindContactById(store.contacts, contactId);
  }

  /** `saveEditContact`: looks the contact up (a failed fetch throws there), resolves the
      user, and only then finds out whether the contact exists: reading the colour of a
      missing contact throws before any request. Otherwise the edited fields are put under
      the contact's key with fresh initials and the colour the contact already had. After
      the PUT the contacts are fetched again on a wide window (`desktop`, at least 1100
      pixels) and again when the contact's mobile view is open (`mobileView`); a fetch for a
      signed-in user nobody matches throws and ends the handler. The user cache ends
      refreshed on every path. */
  method SaveEditContact(store: Store, contactId: string, name: string, email: string, phone: string,
                         desktop: bool, mobileView: bool,
                         ls: LocalStorage, server: Server, codec: Codec)
    returns (put: bool)
    modifies store`users, store`contacts, store`writes
    ensures store.users == Keyed(server.users, UserWithId)
    ensures var owner := ResolveUserId(store.users, ls.items, codec);
            var fetched := if owner.Some? then Keyed(Entries(server.contacts, owner.value), ContactWithId) else [];
            var looked := if old(store.contacts) != [] then old(store.contacts) else fetched;
            (put <==> FindContactById(looked, contactId).Some?)
            && (put ==>
                  store.writes == old(store.writes)
                    + [Write(Put, ContactsPath(owner) + "/" + contactId,
                             ContactBody(NewContact(name, email, phone, FindContactById(looked, contactId).value.profileColor)))]
                  && store.contacts == (if (desktop || mobileView) && owner.Some? then fetched else looked))
            && (!put ==> store.writes == old(store.writes) && store.contacts == looked)
  {
    var ok, contact := GetContactById(store, contactId, ls, server, codec);
    if !ok {
      return false;
    }
    var userId := store.GetUserId(ls, server, codec);
    if contact.None? {
      return false;
    }
    store.writes := store.writes + [Write(Put, ContactsPath(userId) + "/" + contactId,
                                          ContactBody(NewContact(name, email, phone, contact.value.profileColor)))];
    put := true;
    if desktop {
      var refetched := store.RefreshContacts(ls, server, codec);
      if !refetched {
        return;
      }
    }
    if mobileView {
      var _ := store.RefreshContacts(ls, server, codec);
    }
  }
}
