/**
 * The request checks of the admin-account endpoints: the ordered validation
 * chain of createAdmin with its four regular expressions and three
 * uniqueness look-ups, the query normalisation of the admin list and the
 * status whitelist of updateAdminStatus. The user table is an abstract
 * store; password hashing and the persisted row are not modelled.
 */
module AdminController {
  import opened JsBuiltins
  import ListQuery

  // ---------------------------------------------------------------------------
  // Field formats
  // ---------------------------------------------------------------------------

  /** String length as JavaScript counts it: UTF-16 code units. */
  function Utf16Length(s: string): (n: nat)
    ensures |s| <= n <= 2 * |s|
    ensures n == |s| <==> forall i :: 0 <= i < |s| ==> !Astral(s[i])
    ensures n == 2 * |s| <==> forall i :: 0 <= i < |s| ==> Astral(s[i])
  {
    if s == [] then 0
    else
      var m := |s| - 1;
      assert forall i :: 0 <= i < m ==> s[..m][i] == s[i];
      Utf16Length(s[..m]) + (if Astral(s[m]) then 2 else 1)
  }

  /** A character outside the Basic Multilingual Plane: two UTF-16 code units. */
  predicate Astral(c: char)
  {
    c as int > 0xFFFF
  }

  /** The positions of s that hold an astral character. */
  function AstralPositions(s: string): set<nat>
  {
    set i: nat | i < |s| && Astral(s[i])
  }

  /** One code unit per character, plus one more for each astral character. */
  lemma {:induction false} Utf16LengthCountsAstral(s: string)
    ensures Utf16Length(s) == |s| + |AstralPositions(s)|
  {
    if s != [] {
      var m := |s| - 1;
      Utf16LengthCountsAstral(s[..m]);
      var before := AstralPositions(s[..m]);
      var here: set<nat> := if Astral(s[m]) then {m} else {};
      forall i: nat ensures i in AstralPositions(s) <==> i in before + here {
        if i < m {
          assert s[..m][i] == s[i];
        }
      }
      assert AstralPositions(s) == before + here;
      assert m !in before;
    }
  }

  predicate IsWordChar(c: char)
  {
    ('a' <= c <= 'z') || ('A' <= c <= 'Z') || ('0' <= c <= '9') || c == '_'
  }

  predicate IsAsciiDigit(c: char)
  {
    '0' <= c <= '9'
  }

  /** `/^[a-zA-Z0-9_]{4,20}$/`: 4 to 20 word characters and nothing else. */
  predicate UsernameMatches(s: string)
  {
    4 <= |s| <= 20 && forall i :: 0 <= i < |s| ==> IsWordChar(s[i])
  }

  /** `password.length < 6 || password.length > 20` rejects. */
  predicate PasswordLengthOk(s: string)
  {
    6 <= Utf16Length(s) <= 20
  }

  /** A run of `[^\s@]`. */
  predicate EmailAtoms(s: string)
  {
    forall i :: 0 <= i < |s| ==> s[i] != '@' && !IsWhitespace(s[i])
  }

  /**
   * `/^[^\s@]+@[^\s@]+\.[^\s@]+$/`: the string splits as local "@" host "."
   * tail with all three parts non-empty runs of `[^\s@]`.
   */
  predicate EmailMatches(s: string)
  {
    exists i, j :: 0 < i && i + 1 < j && j + 1 < |s| && s[i] == '@' && s[j] == '.'
                   && EmailAtoms(s[..i]) && EmailAtoms(s[i + 1..j]) && EmailAtoms(s[j + 1..])
  }

  /** `/^1[3-9]\d{9}$/`: eleven ASCII digits starting "13".."19". */
  predicate PhoneMatches(s: string)
  {
    |s| == 11 && s[0] == '1' && '3' <= s[1] <= '9'
    && forall i :: 2 <= i < 11 ==> IsAsciiDigit(s[i])
  }

  /**
   * The email pattern in plain words: no whitespace, exactly one '@' with
   * something before it, and after it a '.' that is neither the first nor
   * the last character of the domain.
   */
  predicate PlainEmail(s: string)
  {
    (forall k :: 0 <= k < |s| ==> !IsWhitespace(s[k]))
    && (exists i :: 0 < i < |s| && s[i] == '@'
          && (forall k :: 0 <= k < |s| && k != i ==> s[k] != '@')
          && (exists j :: i + 1 < j < |s| - 1 && s[j] == '.'))
  }

  lemma EmailMatchesIff(s: string)
    ensures EmailMatches(s) <==> PlainEmail(s)
  {
    if EmailMatches(s) {
      MatchedEmailIsPlain(s);
    }
    if PlainEmail(s) {
      PlainEmailMatches(s);
    }
  }

  lemma MatchedEmailIsPlain(s: string)
    requires EmailMatches(s)
    ensures PlainEmail(s)
  {
    var i, j :| 0 < i && i + 1 < j && j + 1 < |s| && s[i] == '@' && s[j] == '.'
                && EmailAtoms(s[..i]) && EmailAtoms(s[i + 1..j]) && EmailAtoms(s[j + 1..]);
    forall k | 0 <= k < |s| && k != i ensures s[k] != '@' && !IsWhitespace(s[k]) {
      if k < i {
        assert s[k] == s[..i][k];
      } else if k < j {
        assert s[k] == s[i + 1..j][k - i - 1];
      } else if k > j {
        assert s[k] == s[j + 1..][k - j - 1];
      }
    }
  }

  lemma PlainEmailMatches(s: string)
    requires PlainEmail(s)
    ensures EmailMatches(s)
  {
    var i :| 0 < i < |s| && s[i] == '@'
             && (forall k :: 0 <= k < |s| && k != i ==> s[k] != '@')
             && exists j :: i + 1 < j < |s| - 1 && s[j] == '.';
    var j :| i + 1 < j < |s| - 1 && s[j] == '.';
    assert EmailAtoms(s[..i]);
    assert EmailAtoms(s[i + 1..j]);
    assert EmailAtoms(s[j + 1..]);
  }

  // ---------------------------------------------------------------------------
  // createAdmin
  // ---------------------------------------------------------------------------

  /** The request body of createAdmin; a missing field is None. */
  datatype AdminForm = AdminForm(
    username: Option<string>, password: Option<string>,
    email: Option<string>, phone: Option<string>)

  /** The three uniqueness look-ups against the user table. */
  datatype UserIndex = UserIndex(usernames: set<string>, emails: set<string>, phones: set<string>)

  /**
   * Every 400 answer of createAdmin, in the order the checks run; the last
   * one is the catch of a SequelizeValidationError thrown by User.create.
   */
  datatype FormError =
    | MissingField | BadUsername | BadPassword | BadEmail | BadPhone
    | UsernameTaken | EmailTaken | PhoneTaken | InvalidByModel

  /** A new account is created as an active admin. */
  datatype NewAdmin = NewAdmin(username: string, email: string, phone: string, role: string, status: string)

  datatype CreateOutcome = Rejected(status: int, error: FormError) | Created(status: int, admin: NewAdmin)

  predicate AllPresent(f: AdminForm)
  {
    TruthyString(f.username) && TruthyString(f.password)
    && TruthyString(f.email) && TruthyString(f.phone)
  }

  predicate FormatsOk(f: AdminForm)
    requires AllPresent(f)
  {
    UsernameMatches(f.username.value) && PasswordLengthOk(f.password.value)
    && EmailMatches(f.email.value) && PhoneMatches(f.phone.value)
  }

  /** None of the three look-ups finds a user. */
  predicate Unused(f: AdminForm, users: UserIndex)
    requires AllPresent(f)
  {
    f.username.value !in users.usernames && f.email.value !in users.emails
    && f.phone.value !in users.phones
  }

  /**
   * createAdmin: every check answers 400 on its own, and the first failing
   * check in the order missing field, username, password, email, phone,
   * username taken, email taken, phone taken decides the answer. A form that
   * passes all eight reaches User.create, whose `isEmail` validator on the
   * email column is the ninth check: `emailAccepted` is that validator's
   * verdict, and a refusal is caught as a 400.
   */
  function CreateAdmin(f: AdminForm, users: UserIndex, emailAccepted: string -> bool): (r: CreateOutcome)
    ensures r.Rejected? ==> r.status == 400
    ensures r.Created? <==>
              AllPresent(f) && FormatsOk(f) && Unused(f, users) && emailAccepted(f.email.value)
    ensures r.Created? ==>
              r.status == 201
              && r.admin == NewAdmin(f.username.value, f.email.value, f.phone.value, "admin", "active")
    ensures r == Rejected(400, MissingField) <==> !AllPresent(f)
    ensures r == Rejected(400, BadUsername) <==>
              AllPresent(f) && !UsernameMatches(f.username.value)
    ensures r == Rejected(400, BadPassword) <==>
              AllPresent(f) && UsernameMatches(f.username.value)
              && !PasswordLengthOk(f.password.value)
    ensures r == Rejected(400, BadEmail) <==>
              AllPresent(f) && UsernameMatches(f.username.value)
              && PasswordLengthOk(f.password.value) && !EmailMatches(f.email.value)
    ensures r == Rejected(400, BadPhone) <==>
              AllPresent(f) && UsernameMatches(f.username.value)
              && PasswordLengthOk(f.password.value) && EmailMatches(f.email.value)
              && !PhoneMatches(f.phone.value)
    ensures r == Rejected(400, UsernameTaken) <==>
              AllPresent(f) && FormatsOk(f) && f.username.value in users.usernames
    ensures r == Rejected(400, EmailTaken) <==>
              AllPresent(f) && FormatsOk(f) && f.username.value !in users.usernames
              && f.email.value in users.emails
    ensures r == Rejected(400, PhoneTaken) <==>
              AllPresent(f) && FormatsOk(f) && f.username.value !in users.usernames
              && f.email.value !in users.emails && f.phone.value in users.phones
    ensures r == Rejected(400, InvalidByModel) <==>
              AllPresent(f) && FormatsOk(f) && Unused(f, users) && !emailAccepted(f.email.value)
  {
    if !AllPresent(f) then Rejected(400, MissingField)
    else
      var username, password, email, phone := f.username.value, f.password.value, f.email.value, f.phone.value;
      if !UsernameMatches(username) then Rejected(400, BadUsername)
      else if !PasswordLengthOk(password) then Rejected(400, BadPassword)
      else if !EmailMatches(email) then Rejected(400, BadEmail)
      else if !PhoneMatches(phone) then Rejected(400, BadPhone)
      else if username in users.usernames then Rejected(400, UsernameTaken)
      else if email in users.emails then Rejected(400, EmailTaken)
      else if phone in users.phones then Rejected(400, PhoneTaken)
      else if !emailAccepted(email) then Rejected(400, InvalidByModel)
      else Created(201, NewAdmin(username, email, phone, "admin", "active"))
  }

  /**
   * A form that fails a presence or format check is refused whatever the
   * user table holds and whatever the model validator would say.
   */
  lemma FormatErrorsIgnoreStore(f: AdminForm, u1: UserIndex, u2: UserIndex, v1: string -> bool, v2: string -> bool)
    requires !AllPresent(f) || !FormatsOk(f)
    ensures CreateAdmin(f, u1, v1) == CreateAdmin(f, u2, v2)
  {
  }

  /**
   * The regular expression admits a one-letter top-level domain, which the
   * column's `isEmail` validator refuses: "a@b.c" then passes all eight
   * checks of the handler and is answered 400 by the catch instead of 201.
   */
  lemma RegexAdmitsModelRefusedEmail(users: UserIndex, emailAccepted: string -> bool)
    requires "abcd" !in users.usernames && "a@b.c" !in users.emails && "13800000000" !in users.phones
    requires !emailAccepted("a@b.c")
    ensures var f := AdminForm(Some("abcd"), Some("secret"), Some("a@b.c"), Some("13800000000"));
            AllPresent(f) && FormatsOk(f) && Unused(f, users)
            && CreateAdmin(f, users, emailAccepted) == Rejected(400, InvalidByModel)
  {
    var e := "a@b.c";
    assert e[1] == '@' && e[3] == '.';
    assert EmailAtoms(e[..1]) && EmailAtoms(e[1 + 1..3]) && EmailAtoms(e[3 + 1..]);
    assert EmailMatches(e);
    assert Utf16Length("secret") == 6;
  }

  // ---------------------------------------------------------------------------
  // getAdminList
  // ---------------------------------------------------------------------------

  /** The admin-list query after normalisation. */
  datatype AdminListQuery = AdminListQuery(
    page: int, pageSize: int, offset: int, usernameLike: Option<string>, role: string)

  /** The part of getAdminList before the count query. */
  function AdminListRequest(page: Option<string>, pageSize: Option<string>, username: Option<string>): (q: AdminListQuery)
    ensures q.page >= 1 && 1 <= q.pageSize <= 100
    ensures q.offset == ListQuery.Offset(q.page, q.pageSize)
    ensures q.role == "admin"
    ensures q.page == ListQuery.Page(page) && q.pageSize == ListQuery.PageSize(pageSize)
    ensures q.usernameLike == ListQuery.ContainsPattern(username)
    ensures q.usernameLike.Some? <==>
              username.Some? && exists i :: 0 <= i < |username.value| && !IsWhitespace(username.value[i])
    ensures q.usernameLike.Some? ==> q.usernameLike.value == "%" + Trim(username.value) + "%"
  {
    var p := ListQuery.Page(page);
    var n := ListQuery.PageSize(pageSize);
    AdminListQuery(p, n, ListQuery.Offset(p, n), ListQuery.ContainsPattern(username), "admin")
  }

  /** The page count reported with the rows. */
  function AdminListTotalPages(q: AdminListQuery, total: nat): (pages: int)
    requires q.pageSize >= 1
    ensures pages >= 0 && total <= pages * q.pageSize
    ensures pages > 0 ==> (pages - 1) * q.pageSize < total
  {
    ListQuery.TotalPages(total, q.pageSize)
  }

  // ---------------------------------------------------------------------------
  // updateAdminStatus
  // ---------------------------------------------------------------------------

  /** A row of the user table. */
  datatype User = User(id: int, username: string, role: string, status: string)

  datatype StatusOutcome = InvalidStatus | AdminNotFound | StatusUpdated(admin: User)

  predicate IsAccountStatus(s: Option<string>)
  {
    s == Some("active") || s == Some("inactive")
  }

  /** updateAdminStatus: the whitelist is checked before the admin is looked up. */
  function UpdateAdminStatus(id: int, status: Option<string>, users: map<int, User>): (r: StatusOutcome)
    ensures !IsAccountStatus(status) <==> r == InvalidStatus
    ensures r == AdminNotFound <==>
              IsAccountStatus(status) && !(id in users && users[id].role == "admin")
    ensures r.StatusUpdated? ==>
              id in users && r.admin == users[id].(status := status.value)
  {
    if !IsAccountStatus(status) then InvalidStatus
    else if id in users && users[id].role == "admin" then StatusUpdated(users[id].(status := status.value))
    else AdminNotFound
  }

  /** An invalid status gets the same answer whatever the store holds. */
  lemma InvalidStatusIgnoresStore(id: int, status: Option<string>, u1: map<int, User>, u2: map<int, User>)
    requires !IsAccountStatus(status)
    ensures UpdateAdminStatus(id, status, u1) == UpdateAdminStatus(id, status, u2) == InvalidStatus
  {
  }
}
