/**
 * The account service: login and registration outcomes, and the
 * password-recovery state machine (a token hash and an expiry stored on the
 * account, cleared by a successful reset). Password and token hashing are
 * parameters: `verify(secret, hash)` stands for the bcrypt comparison, and
 * freshly computed hashes, tokens and the clock arrive as arguments.
 */
module UserService {
  import opened JsValues

  datatype User = User(
    accountId: int,
    loginName: string,
    passwordHash: string,
    email: string,
    fullName: string,
    bio: Option<string>,
    recoveryHash: Option<string>,
    recoveryExpires: Option<int>)

  /** What the service hands out about an account: no hash of any kind. */
  datatype PublicUser = PublicUser(id: int, username: string, email: string, fullName: string, bio: Option<string>)

  function FormatUser(u: User): PublicUser
  {
    PublicUser(u.accountId, u.loginName, u.email, u.fullName, u.bio)
  }

  /** `generateExpiration(24)`: 24 hours, in milliseconds. */
  const RecoveryWindow := 24 * 60 * 60 * 1000

  /** `isExpired`: the clock is past the stored expiry; a missing expiry
      reads as the epoch. */
  predicate Expired(expires: Option<int>, now: int)
  {
    now > (if expires.Some? then expires.value else 0)
  }

  datatype EmailTemplate = EmailTemplate(subject: string, html: string, text: string)
  datatype EmailContent = EmailContent(html: string, text: string)

  datatype Outcome =
    | Success
    | LoggedIn(user: PublicUser)
    | Registered(user: PublicUser)
    | InvalidCredentials
    | UsernameTaken
    | EmailTaken
    | EmailFailed
    | InvalidToken
    | TokenExpired

  /** The first index, in query order, whose row satisfies `p`. */
  function FirstWhere(users: seq<User>, p: User -> bool): (r: Option<nat>)
    ensures r.Some? ==> r.value < |users| && p(users[r.value]) &&
                        forall j :: 0 <= j < r.value ==> !p(users[j])
    ensures r.None? ==> forall j :: 0 <= j < |users| ==> !p(users[j])
  {
    if users == [] then None
    else if p(users[0]) then Some(0)
    else match FirstWhere(users[1..], p)
      case None => None
      case Some(j) => Some(j + 1)
  }

  function NamedBy(name: string): User -> bool { (u: User) => u.loginName == name }
  function MailedTo(email: string): User -> bool { (u: User) => u.email == email }

  /** A row `findUserByToken` accepts: it holds a recovery hash the token
      verifies against. */
  function Redeems(token: string, verify: (string, string) -> bool): User -> bool
  {
    (u: User) => u.recoveryHash.Some? && verify(token, u.recoveryHash.value)
  }

  // ---------------------------------------------------------------------
  // prepareEmailContent
  // ---------------------------------------------------------------------

  /** `s.replace(/pat/g, rep)` for a literal pattern: left to right, without
      overlaps, replaced text not scanned again. */
  function ReplaceAll(s: string, pat: string, rep: string): string
    requires pat != []
    decreases |s|
  {
    if |s| < |pat| then s
    else if s[..|pat|] == pat then rep + ReplaceAll(s[|pat|..], pat, rep)
    else [s[0]] + ReplaceAll(s[1..], pat, rep)
  }

  /** Text without the placeholder comes through untouched. */
  lemma {:induction false} ReplaceAllAbsent(s: string, pat: string, rep: string)
    requires pat != [] && !Contains(s, pat)
    ensures ReplaceAll(s, pat, rep) == s
    decreases |s|
  {
    if |s| >= |pat| {
      assert s[..|pat|] != pat;
      ReplaceAllAbsent(s[1..], pat, rep);
      assert s == [s[0]] + s[1..];
    }
  }

  /** An occurrence that no earlier occurrence overlaps or precedes is
      replaced, and the scan carries on after it. */
  lemma {:induction false} ReplaceAllAfter(pre: string, pat: string, rep: string, post: string)
    requires pat != []
    requires forall i :: 0 <= i < |pre| ==> !OccursAt(pre + pat + post, pat, i)
    ensures ReplaceAll(pre + pat + post, pat, rep) == pre + rep + ReplaceAll(post, pat, rep)
    decreases |pre|
  {
    var s := pre + pat + post;
    if pre == [] {
      assert s[..|pat|] == pat;
      assert s[|pat|..] == post;
    } else {
      assert !OccursAt(s, pat, 0);
      assert ReplaceAll(s, pat, rep) == [s[0]] + ReplaceAll(s[1..], pat, rep);
      var s' := pre[1..] + pat + post;
      assert s[1..] == s';
      forall i | 0 <= i < |pre[1..]| ensures !OccursAt(s', pat, i) {
        assert !OccursAt(s, pat, i + 1);
        if i + |pat| <= |s'| {
          assert s'[i..i + |pat|] == s[i + 1..i + 1 + |pat|];
        }
      }
      ReplaceAllAfter(pre[1..], pat, rep, post);
      assert pre == [pre[0]] + pre[1..];
    }
  }

  const LinkPlaceholder := "{recoveryLink}"
  const NamePlaceholder := "{userFullName}"
  const DefaultUserName := "Felhasználó"

  /** The name put into the mail: the caller's, or the default parameter
      value when none is passed. */
  function NameOrDefault(userName: Option<string>): (n: string)
    ensures userName.Some? ==> n == userName.value
    ensures userName.None? ==> n == DefaultUserName
  {
    if userName.Some? then userName.value else DefaultUserName
  }

  /** `prepareEmailContent`: every link placeholder, then every name
      placeholder, substituted into the html and into the text; a falsy text
      becomes ''. A template without placeholders comes through unchanged. */
  function PrepareEmailContent(template: EmailTemplate, resetLink: string, userName: Option<string>): (c: EmailContent)
    ensures c.html == ReplaceAll(ReplaceAll(template.html, LinkPlaceholder, resetLink), NamePlaceholder, NameOrDefault(userName))
    ensures template.text != "" ==>
              c.text == ReplaceAll(ReplaceAll(template.text, LinkPlaceholder, resetLink), NamePlaceholder, NameOrDefault(userName))
    ensures template.text == "" ==> c.text == ""
    ensures !Contains(template.html, LinkPlaceholder) && !Contains(template.html, NamePlaceholder) ==>
              c.html == template.html
  {
    var name := NameOrDefault(userName);
    var html := ReplaceAll(ReplaceAll(template.html, LinkPlaceholder, resetLink), NamePlaceholder, name);
    var text := if template.text != "" then
                  ReplaceAll(ReplaceAll(template.text, LinkPlaceholder, resetLink), NamePlaceholder, name)
                else "";
    if !Contains(template.html, LinkPlaceholder) && !Contains(template.html, NamePlaceholder) then
      ReplaceAllAbsent(template.html, LinkPlaceholder, resetLink);
      ReplaceAllAbsent(template.html, NamePlaceholder, name);
      EmailContent(html, text)
    else EmailContent(html, text)
  }

  /** A template with one link placeholder before one name placeholder gets
      the link and the name in their places, whatever braces (CSS rules, say)
      the rest of the html holds, as long as they form no placeholder. */
  lemma {:induction false} LinkThenNameFilled(subject: string, pre: string, mid: string, post: string, text: string, link: string, name: string)
    requires forall i :: 0 <= i < |pre| ==> !OccursAt(pre + LinkPlaceholder + (mid + NamePlaceholder + post), LinkPlaceholder, i)
    requires !Contains(mid + NamePlaceholder + post, LinkPlaceholder)
    requires forall i :: 0 <= i < |pre + link + mid| ==> !OccursAt(pre + link + mid + NamePlaceholder + post, NamePlaceholder, i)
    requires !Contains(post, NamePlaceholder)
    ensures PrepareEmailContent(EmailTemplate(subject, pre + LinkPlaceholder + mid + NamePlaceholder + post, text), link, Some(name)).html
            == pre + link + mid + name + post
  {
    var html := pre + LinkPlaceholder + mid + NamePlaceholder + post;
    var rest := mid + NamePlaceholder + post;
    var linked := ReplaceAll(html, LinkPlaceholder, link);
    assert linked == (pre + link + mid) + NamePlaceholder + post by {
      assert html == pre + LinkPlaceholder + rest;
      ReplaceFirst(pre, LinkPlaceholder, link, rest);
      assert pre + link + rest == (pre + link + mid) + NamePlaceholder + post;
    }
    assert ReplaceAll(linked, NamePlaceholder, name) == pre + link + mid + name + post by {
      ReplaceFirst(pre + link + mid, NamePlaceholder, name, post);
    }
    assert NameOrDefault(Some(name)) == name;
  }

  /** The one occurrence of `pat` in `pre + pat + post` is replaced. */
  lemma ReplaceFirst(pre: string, pat: string, rep: string, post: string)
    requires pat != []
    requires forall i :: 0 <= i < |pre| ==> !OccursAt(pre + pat + post, pat, i)
    requires !Contains(post, pat)
    ensures ReplaceAll(pre + pat + post, pat, rep) == pre + rep + post
  {
    ReplaceAllAfter(pre, pat, rep, post);
    ReplaceAllAbsent(post, pat, rep);
  }

  /** Without a name the greeting falls back to "Felhasználó". */
  lemma DefaultNameUsed(subject: string, link: string)
    ensures PrepareEmailContent(EmailTemplate(subject, NamePlaceholder, ""), link, None).html == DefaultUserName
  {
    assert NamePlaceholder[..|LinkPlaceholder|][1] != LinkPlaceholder[1];
    assert |NamePlaceholder[1..]| < |LinkPlaceholder|;
    assert !Contains(NamePlaceholder, LinkPlaceholder);
    ReplaceAllAbsent(NamePlaceholder, LinkPlaceholder, link);
    assert NamePlaceholder == [] + NamePlaceholder + [];
    ReplaceAllAfter([], NamePlaceholder, DefaultUserName, []);
  }

  // ---------------------------------------------------------------------
  // The account table
  // ---------------------------------------------------------------------

  /** Login names and email addresses are unique (the registration check
      is what keeps them so); ids grow in query order and stay below the
      next one. */
  ghost predicate ValidUsers(users: seq<User>, nextId: int)
  {
    && (forall i, j :: 0 <= i < j < |users| ==> users[i].loginName != users[j].loginName)
    && (forall i, j :: 0 <= i < j < |users| ==> users[i].email != users[j].email)
    && (forall i, j :: 0 <= i < j < |users| ==> users[i].accountId < users[j].accountId)
    && (forall i :: 0 <= i < |users| ==> 1 <= users[i].accountId < nextId)
    && nextId >= 1
  }

  /** Appending an account with a fresh name, a fresh email and the next
      id keeps the table valid. */
  lemma AppendKeepsValid(users: seq<User>, nextId: int, u: User)
    requires ValidUsers(users, nextId)
    requires u.accountId == nextId
    requires forall i :: 0 <= i < |users| ==> users[i].loginName != u.loginName && users[i].email != u.email
    ensures ValidUsers(users + [u], nextId + 1)
  {
    var us := users + [u];
    forall i, j | 0 <= i < j < |us|
      ensures us[i].loginName != us[j].loginName && us[i].email != us[j].email && us[i].accountId < us[j].accountId
    {
      if j == |users| {
        assert us[i] == users[i];
      } else {
        assert us[i] == users[i] && us[j] == users[j];
      }
    }
  }

  /** Changing an account's hashes keeps the table valid. */
  lemma UpdateKeepsValid(users: seq<User>, nextId: int, i: int, u: User)
    requires ValidUsers(users, nextId) && 0 <= i < |users|
    requires u.loginName == users[i].loginName && u.email == users[i].email && u.accountId == users[i].accountId
    ensures ValidUsers(users[i := u], nextId)
  {
  }

  class UserStore {
    var users: seq<User>
    var nextId: int

    ghost predicate Valid()
      reads this
    {
      ValidUsers(users, nextId)
    }

    constructor()
      ensures Valid() && users == [] && nextId == 1
    {
      users := [];
      nextId := 1;
    }

    /** `login`: an unknown name and a wrong password are the same failure. */
    method Login(username: string, password: string, verify: (string, string) -> bool) returns (r: Outcome)
      ensures var i := FirstWhere(users, NamedBy(username));
              && (i.None? ==> r == InvalidCredentials)
              && (i.Some? ==> r == (if verify(password, users[i.value].passwordHash)
                                    then LoggedIn(FormatUser(users[i.value])) else InvalidCredentials))
    {
      var i := FindFirst(NamedBy(username));
      if i.None? || !verify(password, users[i.value].passwordHash) {
        return InvalidCredentials;
      }
      r := LoggedIn(FormatUser(users[i.value]));
    }

    /** The lookup loop shared by `findOne` and `findUserByToken`. */
    method FindFirst(p: User -> bool) returns (r: Option<nat>)
      ensures r == FirstWhere(users, p)
    {
      var k := 0;
      while k < |users|
        invariant 0 <= k <= |users|
        invariant forall j :: 0 <= j < k ==> !p(users[j])
      {
        if p(users[k]) {
          FirstWhereIsFirst(users, p, k);
          return Some(k);
        }
        k := k + 1;
      }
      FirstWhereIsFirst(users, p, |users|);
      return None;
    }

    /** `register`: a taken name wins over a taken email; either creates
        nothing; otherwise the account is appended with the next id. */
    method Register(username: string, newHash: string, email: string, fullName: string) returns (r: Outcome)
      requires Valid()
      modifies this
      ensures Valid()
      ensures (exists i :: 0 <= i < |old(users)| && old(users)[i].loginName == username) ==>
                r == UsernameTaken && users == old(users) && nextId == old(nextId)
      ensures (forall i :: 0 <= i < |old(users)| ==> old(users)[i].loginName != username) &&
              (exists i :: 0 <= i < |old(users)| && old(users)[i].email == email) ==>
                r == EmailTaken && users == old(users) && nextId == old(nextId)
      ensures r.Registered? ==>
                && users == old(users) + [User(old(nextId), username, newHash, email, fullName, None, None, None)]
                && r.user == FormatUser(users[|users| - 1])
      ensures r.UsernameTaken? <==> exists i :: 0 <= i < |old(users)| && old(users)[i].loginName == username
      ensures r.EmailTaken? <==>
                (forall i :: 0 <= i < |old(users)| ==> old(users)[i].loginName != username) &&
                (exists i :: 0 <= i < |old(users)| && old(users)[i].email == email)
      ensures r.Registered? <==>
                forall i :: 0 <= i < |old(users)| ==> old(users)[i].loginName != username && old(users)[i].email != email
      ensures r.UsernameTaken? || r.EmailTaken? || r.Registered?
    {
      var byName := FindFirst(NamedBy(username));
      var byEmail := FindFirst(MailedTo(email));
      if byName.Some? {
        assert users[byName.value].loginName == username;
        return UsernameTaken;
      }
      if byEmail.Some? {
        assert users[byEmail.value].email == email;
        return EmailTaken;
      }
      assert forall i :: 0 <= i < |users| ==> users[i].loginName != username by {
        forall i | 0 <= i < |users| ensures users[i].loginName != username {
          assert !NamedBy(username)(users[i]);
        }
      }
      assert forall i :: 0 <= i < |users| ==> users[i].email != email by {
        forall i | 0 <= i < |users| ensures users[i].email != email {
          assert !MailedTo(email)(users[i]);
        }
      }
      var u := User(nextId, username, newHash, email, fullName, None, None, None);
      Append(u);
      r := Registered(FormatUser(u));
    }

    /** The `INSERT` of a new account under the next id. */
    method Append(u: User)
      requires Valid() && u.accountId == nextId
      requires forall i :: 0 <= i < |users| ==> users[i].loginName != u.loginName && users[i].email != u.email
      modifies this
      ensures Valid()
      ensures users == old(users) + [u] && nextId == old(nextId) + 1
    {
      AppendKeepsValid(users, nextId, u);
      users := users + [u];
      nextId := nextId + 1;
    }

    /** `forgotPassword`: an unknown email succeeds silently; otherwise the
        token hash and an expiry 24 hours ahead are stored before the mail
        is sent, and stay stored when sending fails. */
    method ForgotPassword(email: string, tokenHash: string, now: int, mailSent: bool) returns (r: Outcome)
      requires Valid()
      modifies this
      ensures Valid() && nextId == old(nextId)
      ensures var i := FirstWhere(old(users), MailedTo(email));
              && (i.None? ==> r == Success && users == old(users))
              && (i.Some? ==>
                    && users == old(users)[i.value := old(users)[i.value].(recoveryHash := Some(tokenHash),
                                                                          recoveryExpires := Some(now + RecoveryWindow))]
                    && r == (if mailSent then Success else EmailFailed))
    {
      var i := FindFirst(MailedTo(email));
      if i.None? {
        return Success;
      }
      users := users[i.value := users[i.value].(recoveryHash := Some(tokenHash), recoveryExpires := Some(now + RecoveryWindow))];
      if !mailSent {
        return EmailFailed;
      }
      r := Success;
    }

    /** `resetPassword`: no verifying hash is an invalid token, a past
        expiry an expired one, and neither writes; success replaces the
        password hash and clears both recovery fields. */
    method ResetPassword(token: string, newHash: string, now: int, verify: (string, string) -> bool)
      returns (r: Outcome)
      requires Valid()
      modifies this
      ensures Valid() && nextId == old(nextId)
      ensures var i := FirstWhere(old(users), Redeems(token, verify));
              && (i.None? ==> r == InvalidToken && users == old(users))
              && (i.Some? && Expired(old(users)[i.value].recoveryExpires, now) ==>
                    r == TokenExpired && users == old(users))
              && (i.Some? && !Expired(old(users)[i.value].recoveryExpires, now) ==>
                    r == Success &&
                    users == old(users)[i.value := old(users)[i.value].(passwordHash := newHash,
                                                                        recoveryHash := None,
                                                                        recoveryExpires := None)])
    {
      var i := FindFirst(Redeems(token, verify));
      if i.None? {
        return InvalidToken;
      }
      if Expired(users[i.value].recoveryExpires, now) {
        return TokenExpired;
      }
      users := users[i.value := users[i.value].(passwordHash := newHash, recoveryHash := None, recoveryExpires := None)];
      r := Success;
    }
  }

  lemma FirstWhereIsFirst(users: seq<User>, p: User -> bool, k: int)
    requires 0 <= k <= |users|
    requires forall j :: 0 <= j < k ==> !p(users[j])
    requires k < |users| ==> p(users[k])
    ensures k < |users| ==> FirstWhere(users, p) == Some(k)
    ensures k == |users| ==> FirstWhere(users, p) == None
  {
  }

  /** A reset token works once: the account it reset no longer redeems it,
      and an account whose recovery fields were never set never does. */
  lemma {:induction false} ResetTokenIsSpent(users: seq<User>, i: nat, newHash: string, token: string,
                                             verify: (string, string) -> bool)
    requires i < |users|
    ensures var after := users[i := users[i].(passwordHash := newHash, recoveryHash := None, recoveryExpires := None)];
            FirstWhere(after, Redeems(token, verify)) != Some(i)
  {
  }

  /** The token stored by `forgotPassword` is the one `resetPassword` then
      finds, as long as no earlier account's hash also verifies it. */
  lemma StoredTokenIsFound(users: seq<User>, i: nat, token: string, tokenHash: string, now: int,
                           verify: (string, string) -> bool)
    requires i < |users| && verify(token, tokenHash)
    requires forall j :: 0 <= j < i ==> !Redeems(token, verify)(users[j])
    ensures var after := users[i := users[i].(recoveryHash := Some(tokenHash), recoveryExpires := Some(now + RecoveryWindow))];
            && FirstWhere(after, Redeems(token, verify)) == Some(i)
            && !Expired(after[i].recoveryExpires, now)
  {
    var after := users[i := users[i].(recoveryHash := Some(tokenHash), recoveryExpires := Some(now + RecoveryWindow))];
    FirstWhereIsFirst(after, Redeems(token, verify), i);
  }
}
