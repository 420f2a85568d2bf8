/** The sign-up page: the full-name check, the password confirmation, the initials a new
    account gets, the check that an email is not yet registered, and the request that
    creates the account when all three checks pass. */
module SignUp {
  import opened Common
  import opened Entities
  import opened Storage

  // ---------------------------------------------------------------- full name

  /** The letter class `[A-Za-zÄäÖöÜüß]` of the name pattern. */
  predicate IsNameLetter(c: char)
  {
    'A' <= c <= 'Z' || 'a' <= c <= 'z'
    || c == '\U{C4}' || c == '\U{E4}' || c == '\U{D6}' || c == '\U{F6}'
    || c == '\U{DC}' || c == '\U{FC}' || c == '\U{DF}'
  }

  /** `[A-Za-zÄäÖöÜüß]+`: one or more name letters. */
  ghost predicate Word(s: string)
  {
    |s| >= 1 && forall i :: 0 <= i < |s| ==> IsNameLetter(s[i])
  }

  /** `(?:\s[A-Za-zÄäÖöÜüß]+)+`: one or more words, each after one whitespace character. */
  ghost predicate MoreWords(t: string)
    decreases |t|
  {
    |t| >= 2 && IsWhitespace(t[0])
    && exists j :: 2 <= j <= |t| && Word(t[1..j]) && (j == |t| || MoreWords(t[j..]))
  }

  /** The whole of `/^[A-Za-zÄäÖöÜüß]+(?:\s[A-Za-zÄäÖöÜüß]+)+$/`: a word followed by at
      least one more. */
  ghost predicate NamePattern(s: string)
  {
    exists i :: 1 <= i < |s| && Word(s[..i]) && MoreWords(s[i..])
  }

  /** Every character is a name letter or whitespace, and every whitespace character is
      followed by a name letter. */
  predicate LettersAndGaps(t: string)
  {
    (forall i :: 0 <= i < |t| ==> IsNameLetter(t[i]) || IsWhitespace(t[i]))
    && (forall i :: 0 <= i < |t| && IsWhitespace(t[i]) ==> i + 1 < |t| && IsNameLetter(t[i + 1]))
  }

  /** The first whitespace position at or after `from`, or the length when there is none. */
  function NextGap(t: string, from: nat): (k: nat)
    requires from <= |t|
    ensures from <= k <= |t|
    ensures k < |t| ==> IsWhitespace(t[k])
    ensures forall m :: from <= m < k ==> !IsWhitespace(t[m])
    decreases |t| - from
  {
    if from == |t| || IsWhitespace(t[from]) then from else NextGap(t, from + 1)
  }

  lemma MoreWordsShape(t: string)
    ensures MoreWords(t) <==> |t| >= 1 && IsWhitespace(t[0]) && LettersAndGaps(t)
  {
    if MoreWords(t) { MoreWordsHasGaps(t); }
    if |t| >= 1 && IsWhitespace(t[0]) && LettersAndGaps(t) { GapsMakeMoreWords(t); }
  }

  lemma {:induction false} MoreWordsHasGaps(t: string)
    requires MoreWords(t)
    ensures |t| >= 1 && IsWhitespace(t[0]) && LettersAndGaps(t)
    decreases |t|
  {
    var j :| 2 <= j <= |t| && Word(t[1..j]) && (j == |t| || MoreWords(t[j..]));
    WordLetters(t, 1, j);
    if j < |t| {
      MoreWordsHasGaps(t[j..]);
    }
    GapsJoin(t, j);
  }

  lemma {:induction false} GapsMakeMoreWords(t: string)
    requires |t| >= 1 && IsWhitespace(t[0]) && LettersAndGaps(t)
    ensures MoreWords(t)
    decreases |t|
  {
    var j := NextGap(t, 1);
    assert 2 <= j by { assert IsNameLetter(t[1]); }
    LettersWord(t, 1, j);
    if j < |t| {
      GapsSuffix(t, j);
      GapsMakeMoreWords(t[j..]);
    }
  }

  /** A word inside `t` from `lo` to `hi` means letters at those positions of `t`. */
  lemma WordLetters(t: string, lo: nat, hi: nat)
    requires lo < hi <= |t| && Word(t[lo..hi])
    ensures forall i :: lo <= i < hi ==> IsNameLetter(t[i])
  {
    forall i | lo <= i < hi ensures IsNameLetter(t[i]) { assert t[lo..hi][i - lo] == t[i]; }
  }

  /** A run of letters of `t` without whitespace between `lo` and `hi` is a word. */
  lemma LettersWord(t: string, lo: nat, hi: nat)
    requires lo < hi <= |t|
    requires forall i :: 0 <= i < |t| ==> IsNameLetter(t[i]) || IsWhitespace(t[i])
    requires forall m :: lo <= m < hi ==> !IsWhitespace(t[m])
    ensures Word(t[lo..hi])
  {
    forall i | 0 <= i < hi - lo ensures IsNameLetter(t[lo..hi][i]) {
      assert t[lo..hi][i] == t[lo + i];
    }
  }

  lemma GapsSuffix(t: string, j: nat)
    requires j <= |t| && LettersAndGaps(t)
    ensures LettersAndGaps(t[j..])
  {
    var u := t[j..];
    assert forall i :: 0 <= i < |u| ==> u[i] == t[i + j];
  }

  /** A leading whitespace, letters up to `j`, and from `j` on another run of words. */
  lemma GapsJoin(t: string, j: nat)
    requires 2 <= j <= |t| && IsWhitespace(t[0])
    requires forall i :: 1 <= i < j ==> IsNameLetter(t[i])
    requires j < |t| ==> IsWhitespace(t[j]) && LettersAndGaps(t[j..])
    ensures LettersAndGaps(t)
  {
    if j < |t| {
      var u := t[j..];
      assert forall i :: j <= i < |t| ==> t[i] == u[i - j];
    }
  }

  /** `validateName`: true exactly for a text the full-name pattern matches. */
  function ValidateName(name: string): (ok: bool)
    ensures ok <==> NamePattern(name)
  {
    NamePatternIff(name);
    |name| >= 1 && IsNameLetter(name[0]) && LettersAndGaps(name)
    && exists i :: 0 <= i < |name| && IsWhitespace(name[i])
  }

  lemma NamePatternIff(s: string)
    ensures NamePattern(s) <==>
              |s| >= 1 && IsNameLetter(s[0]) && LettersAndGaps(s)
              && exists i :: 0 <= i < |s| && IsWhitespace(s[i])
  {
    if NamePattern(s) {
      var i :| 1 <= i < |s| && Word(s[..i]) && MoreWords(s[i..]);
      MoreWordsHasGaps(s[i..]);
      WordLetters(s, 0, i);
      assert s[..i] == s[0..i];
      GapsJoinFirst(s, i);
    }
    if |s| >= 1 && IsNameLetter(s[0]) && LettersAndGaps(s) && exists i :: 0 <= i < |s| && IsWhitespace(s[i]) {
      var i := NextGap(s, 0);
      LettersWord(s, 0, i);
      assert s[..i] == s[0..i];
      GapsSuffix(s, i);
      GapsMakeMoreWords(s[i..]);
    }
  }

  /** Letters up to `i`, then a run of words from `i` on. */
  lemma GapsJoinFirst(s: string, i: nat)
    requires 1 <= i < |s|
    requires forall m :: 0 <= m < i ==> IsNameLetter(s[m])
    requires |s[i..]| >= 1 && IsWhitespace(s[i..][0]) && LettersAndGaps(s[i..])
    ensures IsNameLetter(s[0]) && LettersAndGaps(s) && IsWhitespace(s[i])
  {
    var u := s[i..];
    assert forall m :: i <= m < |s| ==> s[m] == u[m - i];
  }

  lemma FullNameAccepted()
    ensures ValidateName("Anna M\U{FC}ller")
  {
    assert IsWhitespace("Anna M\U{FC}ller"[4]);
  }

  lemma SingleWordRejected()
    ensures !ValidateName("Anna")
  {
    var s := "Anna";
    assert forall i :: 0 <= i < |s| ==> IsNameLetter(s[i]);
  }

  lemma DoubleSpaceRejected()
    ensures !ValidateName("Anna  Berg")
  {
    var s := "Anna  Berg";
    assert IsWhitespace(s[4]) && !IsNameLetter(s[5]);
  }

  // ---------------------------------------------------------------- passwords

  /** `validatePasswords`: the password and its confirmation must be the same text. */
  function ValidatePasswords(password: string, confirmPassword: string): (ok: bool)
    ensures ok <==> password == confirmPassword
    ensures ok ==> ValidatePasswords(confirmPassword, password)
  {
    password == confirmPassword
  }

  // ---------------------------------------------------------------- initials

  /** `getInitials`: the first character of each space-separated word, upper-cased. */
  function GetInitials(name: string): (r: string)
    ensures |r| <= 2 * (|name| + 1)
  {
    SplitSize(name, ' ');
    Upper(FirstChars(Split(name, ' ')))
  }

  function AsciiUpper(c: char): char
  {
    if 'a' <= c <= 'z' then (c as int - 32) as char else c
  }

  /** On ASCII letters `toUpperCase` maps one character to one. */
  lemma {:induction false} UpperOfAsciiLetters(s: string)
    requires forall i :: 0 <= i < |s| ==> 'A' <= s[i] <= 'Z' || 'a' <= s[i] <= 'z'
    ensures Upper(s) == seq(|s|, i requires 0 <= i < |s| => AsciiUpper(s[i]))
  {
    if s != [] {
      var t := s[1..];
      assert forall i :: 0 <= i < |t| ==> t[i] == s[i + 1];
      UpperOfAsciiLetters(t);
      assert UpperChar(s[0]) == [AsciiUpper(s[0])];
      assert Upper(s) == [AsciiUpper(s[0])] + Upper(t);
    }
  }

  /** A name of words separated by single spaces, each starting with an ASCII letter, gets
      one capital initial per word. */
  lemma InitialsOfFullName(words: seq<string>)
    requires words != []
    requires forall i :: 0 <= i < |words| ==> words[i] != [] && ' ' !in words[i]
    requires forall i :: 0 <= i < |words| ==> 'A' <= words[i][0] <= 'Z' || 'a' <= words[i][0] <= 'z'
    ensures GetInitials(Join(words, " ")) == seq(|words|, i requires 0 <= i < |words| => AsciiUpper(words[i][0]))
  {
    SplitJoin(words);
    FirstCharsOfNonEmpty(words);
    UpperOfAsciiLetters(FirstChars(words));
  }

  // ---------------------------------------------------------------- email

  /** `checkEmailAvailability`: whether a registered user already has exactly this email.
      `None` stands for a failed request or reply, which the handler turns into false. */
  function CheckEmailAvailability(reply: Option<Server>, email: string): (taken: bool)
    ensures taken <==> reply.Some? && exists i :: 0 <= i < |reply.value.users| && reply.value.users[i].1.email == email
  {
    match reply
    case None => false
    case Some(server) =>
      FindFirst(server.users, (e: (string, User)) => e.1.email == email).Some?
  }

  /** `checkEmail`: the negation; a failed request therefore lets any email through. */
  function CheckEmail(reply: Option<Server>, email: string): (available: bool)
    ensures reply.None? ==> available
    ensures available <==> reply.None? || forall i :: 0 <= i < |reply.value.users| ==> reply.value.users[i].1.email != email
  {
    !CheckEmailAvailability(reply, email)
  }

  // ---------------------------------------------------------------- sign-up

  /** The account `createUser` posts: the store assigns its key. */
  function NewUser(name: string, email: string, password: string): (u: User)
    ensures u.id == "" && u.name == name && u.email == email && u.password == password
    ensures u.initials == GetInitials(name)
  {
    User("", name, email, password, GetInitials(name))
  }

  /** `signUp`: the request sent, if any. All three checks run; the account is posted to
      "/users" only when the email is available, the name is a full name and the
      passwords match. */
  function SignUpRequest(reply: Option<Server>, name: string, email: string, password: string,
                         confirmPassword: string): (r: Option<Write>)
    ensures r.Some? <==> CheckEmail(reply, email) && NamePattern(name) && password == confirmPassword
    ensures r.Some? ==> r.value.verb == Post && r.value.path == "/users"
                        && r.value.body == UserBody(NewUser(name, email, password))
  {
    var available := CheckEmail(reply, email);
    var nameOk := ValidateName(name);
    var passwordsOk := ValidatePasswords(password, confirmPassword);
    if available && nameOk && passwordsOk then Some(Write(Post, "/users", UserBody(NewUser(name, email, password))))
    else None
  }

  predicate DistinctEmails(entries: seq<(string, User)>)
  {
    forall i, j :: 0 <= i < j < |entries| ==> entries[i].1.email != entries[j].1.email
  }

  /** When the registered users were read, a sign-up never registers an email twice: the
      store with the new account added under a fresh key still has distinct emails. */
  lemma SignUpKeepsEmailsDistinct(server: Server, key: string, name: string, email: string,
                                  password: string, confirmPassword: string)
    requires DistinctEmails(server.users)
    requires SignUpRequest(Some(server), name, email, password, confirmPassword).Some?
    ensures DistinctEmails(server.users + [(key, NewUser(name, email, password))])
  {
    var all := server.users + [(key, NewUser(name, email, password))];
    forall i, j | 0 <= i < j < |all| ensures all[i].1.email != all[j].1.email {
      assert all[i] == server.users[i];
      if j < |server.users| { assert all[j] == server.users[j]; }
    }
  }
}
