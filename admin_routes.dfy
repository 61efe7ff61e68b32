/** The admin routes (routes/admin.js): the paged listing of verified users, user creation
    and gift creation. Each runs after the token check (module AuthMiddleware) and the
    admin check (module RequireAdmin); the handlers here start where those have passed.

    The listing is a query, a function of the users collection. The two creations insert
    into a collection and are methods tied to functions of the old collection. */
module AdminRoutes {

  import opened Wrappers
  import opened JsValues
  import Strings
  import Sequences
  import opened UserModel
  import GiftModel

  const SERVER_ERROR := "Server error"
  const CREDENTIALS_REQUIRED := "Email and password are required"
  const EMAIL_TAKEN := "User with this email already exists"
  const GIFT_FIELDS_REQUIRED := "userId and templateId are required"
  const USER_NOT_FOUND := "User not found"

  /** A request body: its fields by name. */
  type Body = map<string, Json>

  /** A field of `req.body || {}`; a missing body reads as `{}`. */
  function Field(body: Option<Body>, key: string): (v: Json)
    ensures body.None? ==> v == Undefined
  {
    if body.Some? && key in body.value then body.value[key] else Undefined
  }

  // ---------------------------------------------------------------------------------
  // GET /users

  /** The fields a listing shows of a user. */
  datatype Listed = Listed(id: Id, email: string, createdAt: Time)

  function Project(u: User): (l: Listed)
    ensures l.id == u.id && l.email == u.email && l.createdAt == u.createdAt
  {
    Listed(u.id, u.email, u.createdAt)
  }

  function ProjectAll(xs: seq<User>): (r: seq<Listed>)
    ensures |r| == |xs| && forall k :: 0 <= k < |xs| ==> r[k] == Project(xs[k])
  {
    seq(|xs|, k requires 0 <= k < |xs| => Project(xs[k]))
  }

  /** The query: verified, with a password, and, when the search is on, an email the
      case-insensitive pattern built from `search` matches (`emailMatches`). */
  predicate Eligible(u: User, searching: bool, emailMatches: string -> bool) {
    u.isVerified && u.password.Some? && (searching ==> emailMatches(u.email))
  }

  /** `if (search)`, with `search` defaulting to `''`: the search is on exactly when the
      query's `search` is truthy. */
  function Searching(search: Json): (on: bool)
    ensures on == Truthy(search)
  {
    Truthy(DefaultIfUndefined(search, Str("")))
  }

  /** Newest first: `createdAt` never increases along the sequence. */
  predicate NewestFirst(xs: seq<User>) {
    forall i, j :: 0 <= i < j < |xs| ==> xs[i].createdAt >= xs[j].createdAt
  }

  /** Inserting into a newest-first sequence, in front of the users no newer than `x`. */
  function InsertByNewest(x: User, s: seq<User>): (r: seq<User>)
    ensures |r| == |s| + 1
  {
    if |s| == 0 || x.createdAt >= s[0].createdAt then [x] + s
    else [s[0]] + InsertByNewest(x, s[1..])
  }

  /** Inserting a user no newer than `t` into users no newer than `t` gives users no newer
      than `t`. */
  lemma {:induction false} InsertByNewestBound(x: User, s: seq<User>, t: Time)
    requires x.createdAt <= t
    requires forall k :: 0 <= k < |s| ==> s[k].createdAt <= t
    ensures forall k :: 0 <= k < |InsertByNewest(x, s)| ==> InsertByNewest(x, s)[k].createdAt <= t
  {
    if |s| > 0 && x.createdAt < s[0].createdAt {
      InsertByNewestBound(x, s[1..], t);
    }
  }

  /** Insertion keeps the order newest first. */
  lemma {:induction false} InsertByNewestSorted(x: User, s: seq<User>)
    requires NewestFirst(s)
    ensures NewestFirst(InsertByNewest(x, s))
  {
    if |s| > 0 && x.createdAt < s[0].createdAt {
      var rest := InsertByNewest(x, s[1..]);
      InsertByNewestSorted(x, s[1..]);
      InsertByNewestBound(x, s[1..], s[0].createdAt);
      assert InsertByNewest(x, s) == [s[0]] + rest;
    }
  }

  /** Insertion adds exactly `x`. */
  lemma {:induction false} InsertByNewestAdds(x: User, s: seq<User>)
    ensures multiset(InsertByNewest(x, s)) == multiset(s) + multiset{x}
  {
    if |s| > 0 && x.createdAt < s[0].createdAt {
      InsertByNewestAdds(x, s[1..]);
      assert s == [s[0]] + s[1..];
    }
  }

  /** `sort({ createdAt: -1 })`: the same users, newest first. Users created at the same
      instant keep their collection order. */
  function SortByNewest(xs: seq<User>): (r: seq<User>)
    ensures NewestFirst(r)
    ensures multiset(r) == multiset(xs)
    ensures |r| == |xs|
  {
    if |xs| == 0 then []
    else
      assert xs == [xs[0]] + xs[1..];
      InsertByNewestSorted(xs[0], SortByNewest(xs[1..]));
      InsertByNewestAdds(xs[0], SortByNewest(xs[1..]));
      InsertByNewest(xs[0], SortByNewest(xs[1..]))
  }

  datatype Listing = Listing(users: seq<Listed>, total: nat, page: int, limit: int)

  datatype ListReply = Listed200(listing: Listing) | ListFailed(status: int, error: string)

  /** The users the query matches, in collection order. */
  function Matching(rows: seq<User>, search: Json, emailMatches: string -> bool): (r: seq<User>)
    ensures forall k :: 0 <= k < |r| ==> r[k] in rows && Eligible(r[k], Truthy(search), emailMatches)
    ensures forall u :: u in rows && Eligible(u, Truthy(search), emailMatches) ==> u in r
  {
    var on := Searching(search);
    Sequences.Filter(rows, u => Eligible(u, on, emailMatches))
  }

  /** The matching users as the listing shows them, newest first, before skip and limit. */
  function Newest(rows: seq<User>, search: Json, emailMatches: string -> bool): seq<Listed> {
    ProjectAll(SortByNewest(Matching(rows, search, emailMatches)))
  }

  /** The full newest-first listing shows every matching user, and only them, newest first. */
  lemma NewestShowsMatching(rows: seq<User>, search: Json, emailMatches: string -> bool)
    ensures var all := Newest(rows, search, emailMatches);
      && |all| == |Matching(rows, search, emailMatches)|
      && (forall k :: 0 <= k < |all| ==>
            exists u :: u in rows && Eligible(u, Truthy(search), emailMatches) && all[k] == Project(u))
      && (forall u :: u in rows && Eligible(u, Truthy(search), emailMatches) ==> Project(u) in all)
      && (forall i, j :: 0 <= i < j < |all| ==> all[i].createdAt >= all[j].createdAt)
  {
    NewestOnlyMatching(rows, search, emailMatches);
    NewestEveryMatching(rows, search, emailMatches);
    NewestOrdered(rows, search, emailMatches);
  }

  lemma NewestOnlyMatching(rows: seq<User>, search: Json, emailMatches: string -> bool)
    ensures var all := Newest(rows, search, emailMatches);
      forall k :: 0 <= k < |all| ==>
        exists u :: u in rows && Eligible(u, Truthy(search), emailMatches) && all[k] == Project(u)
  {
    var matching := Matching(rows, search, emailMatches);
    var sorted := SortByNewest(matching);
    var all := ProjectAll(sorted);
    forall k | 0 <= k < |all|
      ensures exists u :: u in rows && Eligible(u, Truthy(search), emailMatches) && all[k] == Project(u)
    {
      var u := sorted[k];
      assert u in multiset(matching);
      assert u in matching;
    }
  }

  lemma NewestEveryMatching(rows: seq<User>, search: Json, emailMatches: string -> bool)
    ensures var all := Newest(rows, search, emailMatches);
      forall u :: u in rows && Eligible(u, Truthy(search), emailMatches) ==> Project(u) in all
  {
    var sorted := SortByNewest(Matching(rows, search, emailMatches));
    var all := ProjectAll(sorted);
    forall u | u in rows && Eligible(u, Truthy(search), emailMatches) ensures Project(u) in all {
      assert u in multiset(sorted);
      var k :| 0 <= k < |sorted| && sorted[k] == u;
      assert all[k] == Project(u);
    }
  }

  lemma NewestOrdered(rows: seq<User>, search: Json, emailMatches: string -> bool)
    ensures var all := Newest(rows, search, emailMatches);
      forall i, j :: 0 <= i < j < |all| ==> all[i].createdAt >= all[j].createdAt
  {
    var sorted := SortByNewest(Matching(rows, search, emailMatches));
    var all := ProjectAll(sorted);
    forall i, j | 0 <= i < j < |all| ensures all[i].createdAt >= all[j].createdAt {
      assert all[i] == Project(sorted[i]) && all[j] == Project(sorted[j]);
    }
  }

  /** `(pageNum - 1) * limitNum`. */
  function Skip(pageNum: int, limitNum: int): int {
    (pageNum - 1) * limitNum
  }

  /** How many `.limit(limitNum)` returns at most: a negative limit counts as its absolute
      value, and zero means no limit (`None`). */
  function Take(limitNum: int): Option<nat> {
    if limitNum == 0 then None else Some(if limitNum < 0 then -limitNum else limitNum)
  }

  /** Where a skip of `skip` starts in a sequence of length `n`. */
  function WindowStart(n: nat, skip: nat): (lo: nat)
    ensures lo <= n
  {
    if skip <= n then skip else n
  }

  /** The slice of `s` from `skip`, at most `take` long. */
  function Window<T>(s: seq<T>, skip: nat, take: Option<nat>): (r: seq<T>)
    ensures take.Some? ==> |r| <= take.value
    ensures WindowStart(|s|, skip) + |r| <= |s|
    ensures r == s[WindowStart(|s|, skip)..WindowStart(|s|, skip) + |r|]
    ensures |r| == if take.None? || WindowStart(|s|, skip) + take.value > |s| then |s| - WindowStart(|s|, skip)
                   else take.value
  {
    var lo := WindowStart(|s|, skip);
    var hi := if take.None? || lo + take.value > |s| then |s| else lo + take.value;
    s[lo..hi]
  }

  /** GET /users with the query's `search` (`''` when absent) and the integers `page` and
      `limit` parse to (1 and 10 when absent). A negative skip is refused by the database. */
  function ListUsers(rows: seq<User>, search: Json, pageNum: int, limitNum: int,
                     emailMatches: string -> bool): ListReply
  {
    var skip := Skip(pageNum, limitNum);
    if skip < 0 then ListFailed(500, SERVER_ERROR)
    else
      var shown := Window(Newest(rows, search, emailMatches), skip, Take(limitNum));
      Listed200(Listing(shown, |Matching(rows, search, emailMatches)|, pageNum, limitNum))
  }

  /** The listing fails exactly when the skip is negative (a page before the first with a
      positive limit, or a negative limit from page 2 on); otherwise it shows at most
      `|limit|` users when the limit is not zero, and counts every matching user whatever
      the page. */
  lemma ListingCounts(rows: seq<User>, search: Json, pageNum: int, limitNum: int, emailMatches: string -> bool)
    ensures ListUsers(rows, search, pageNum, limitNum, emailMatches).ListFailed? <==> Skip(pageNum, limitNum) < 0
    ensures var r := ListUsers(rows, search, pageNum, limitNum, emailMatches);
      r.Listed200? ==>
        && (limitNum != 0 ==> |r.listing.users| <= if limitNum < 0 then -limitNum else limitNum)
        && r.listing.total == |Matching(rows, search, emailMatches)|
        && r.listing.page == pageNum && r.listing.limit == limitNum
  {
  }

  /** A page shows only matching users, newest first. */
  lemma {:induction false} ListingShowsMatching(rows: seq<User>, search: Json, pageNum: int, limitNum: int,
                                                emailMatches: string -> bool)
    ensures var r := ListUsers(rows, search, pageNum, limitNum, emailMatches);
      r.Listed200? ==>
        var shown := r.listing.users;
        && (forall k :: 0 <= k < |shown| ==>
              exists u :: u in rows && Eligible(u, Truthy(search), emailMatches) && shown[k] == Project(u))
        && (forall i, j :: 0 <= i < j < |shown| ==> shown[i].createdAt >= shown[j].createdAt)
  {
    var r := ListUsers(rows, search, pageNum, limitNum, emailMatches);
    if r.Listed200? {
      var all := Newest(rows, search, emailMatches);
      var shown := r.listing.users;
      var lo := PageOffset(rows, search, pageNum, limitNum, emailMatches);
      NewestShowsMatching(rows, search, emailMatches);
      forall k | 0 <= k < |shown|
        ensures exists u :: u in rows && Eligible(u, Truthy(search), emailMatches) && shown[k] == Project(u)
      {
        assert shown[k] == all[lo + k];
      }
      forall i, j | 0 <= i < j < |shown| ensures shown[i].createdAt >= shown[j].createdAt {
        assert shown[i] == all[lo + i] && shown[j] == all[lo + j];
      }
    }
  }

  /** A page is a contiguous slice of the newest-first listing. */
  lemma PageOffset(rows: seq<User>, search: Json, pageNum: int, limitNum: int, emailMatches: string -> bool)
    returns (lo: nat)
    requires ListUsers(rows, search, pageNum, limitNum, emailMatches).Listed200?
    ensures var all, shown := Newest(rows, search, emailMatches), ListUsers(rows, search, pageNum, limitNum, emailMatches).listing.users;
      lo + |shown| <= |all| && shown == all[lo..lo + |shown|]
  {
    var skip: nat := Skip(pageNum, limitNum);
    lo := WindowStart(|Newest(rows, search, emailMatches)|, skip);
  }

  /** The users shown on pages 1 to `k` with a positive limit, one page after another. */
  function Pages(rows: seq<User>, search: Json, limitNum: int, k: nat, emailMatches: string -> bool): seq<Listed>
    requires limitNum > 0
  {
    if k == 0 then []
    else
      Pages(rows, search, limitNum, k - 1, emailMatches) +
      ListUsers(rows, search, k, limitNum, emailMatches).listing.users
  }

  /** How far into a listing of `n` users pages 1 to `k` reach with limit `l`: `k * l`,
      cut at `n`. */
  function PagesEnd(k: nat, l: nat, n: nat): (e: nat)
    ensures e <= n
  {
    if k == 0 then 0 else if PagesEnd(k - 1, l, n) + l <= n then PagesEnd(k - 1, l, n) + l else n
  }

  lemma PagesEndIsProduct(k: nat, l: nat, n: nat)
    ensures PagesEnd(k, l, n) == if k * l <= n then k * l else n
  {
    PagesEndIsReach(k, l, n);
    ReachIsProduct(k, l);
  }

  /** `k` pages of `l`, counted by repeated addition. */
  function Reach(k: nat, l: nat): nat {
    if k == 0 then 0 else Reach(k - 1, l) + l
  }

  lemma {:induction false} ReachIsProduct(k: nat, l: nat)
    ensures Reach(k, l) == k * l
  {
    if k > 0 {
      ReachIsProduct(k - 1, l);
      NextPageStart(k, l);
    }
  }

  lemma {:induction false} PagesEndIsReach(k: nat, l: nat, n: nat)
    ensures PagesEnd(k, l, n) == if Reach(k, l) <= n then Reach(k, l) else n
  {
    if k > 0 {
      PagesEndIsReach(k - 1, l, n);
    }
  }

  /** Paging with a positive limit tiles the newest-first order: pages 1 to `k` together
      are its first `k * limit` users. */
  lemma {:induction false} PagesTile(rows: seq<User>, search: Json, limitNum: int, k: nat,
                                     emailMatches: string -> bool)
    requires limitNum > 0
    ensures var all := Newest(rows, search, emailMatches);
      Pages(rows, search, limitNum, k, emailMatches) == all[..PagesEnd(k, limitNum, |all|)]
  {
    if k > 0 {
      var all := Newest(rows, search, emailMatches);
      PagesTile(rows, search, limitNum, k - 1, emailMatches);
      PageIsSlice(rows, search, limitNum, k, emailMatches);
      AdjacentSlices(all, PagesEnd(k - 1, limitNum, |all|), PagesEnd(k, limitNum, |all|));
    }
  }

  lemma AdjacentSlices<T>(s: seq<T>, a: nat, b: nat)
    requires a <= b <= |s|
    ensures s[..a] + s[a..b] == s[..b]
  {
  }

  /** Page `k` with a positive limit is the slice of the newest-first listing between
      where pages 1 to `k - 1` end and where pages 1 to `k` end. */
  lemma PageIsSlice(rows: seq<User>, search: Json, limitNum: int, k: nat, emailMatches: string -> bool)
    requires limitNum > 0 && k > 0
    ensures var all := Newest(rows, search, emailMatches);
      ListUsers(rows, search, k, limitNum, emailMatches).listing.users ==
        all[PagesEnd(k - 1, limitNum, |all|)..PagesEnd(k, limitNum, |all|)]
  {
    var all := Newest(rows, search, emailMatches);
    var n := |all|;
    NextPageStart(k, limitNum);
    PagesEndIsProduct(k - 1, limitNum, n);
    var m: nat := (k - 1) * limitNum;
    var e := PagesEnd(k - 1, limitNum, n);
    assert e == if m <= n then m else n;
    assert PagesEnd(k, limitNum, n) == if e + limitNum <= n then e + limitNum else n;
    SkipSlice(rows, search, k, limitNum, m, emailMatches);
    if m <= n {
      assert e == m;
    } else {
      assert e == n && PagesEnd(k, limitNum, n) == n;
    }
  }

  /** A page whose skip is not negative is the slice of the newest-first listing from the
      skip, as long as the limit allows, cut at the end of the listing. */
  lemma SkipSlice(rows: seq<User>, search: Json, pageNum: int, limitNum: int, skip: nat,
                  emailMatches: string -> bool)
    requires limitNum > 0 && Skip(pageNum, limitNum) == skip
    ensures var all := Newest(rows, search, emailMatches);
      ListUsers(rows, search, pageNum, limitNum, emailMatches).listing.users ==
        all[(if skip <= |all| then skip else |all|)..(if skip + limitNum <= |all| then skip + limitNum else |all|)]
  {
  }

  lemma NextPageStart(k: nat, limitNum: int)
    requires k > 0 && limitNum >= 0
    ensures k * limitNum == (k - 1) * limitNum + limitNum && (k - 1) * limitNum >= 0
  {
  }

  /** With enough pages to reach the total, paging shows every matching user and only
      matching users, as many entries as there are matching users, newest first. */
  lemma AllPagesListEveryone(rows: seq<User>, search: Json, limitNum: int, k: nat, emailMatches: string -> bool)
    requires limitNum > 0
    requires k * limitNum >= |Matching(rows, search, emailMatches)|
    ensures var shown := Pages(rows, search, limitNum, k, emailMatches);
      && |shown| == |Matching(rows, search, emailMatches)|
      && (forall u :: u in rows && Eligible(u, Truthy(search), emailMatches) ==> Project(u) in shown)
      && (forall e :: e in shown ==> exists u :: u in rows && Eligible(u, Truthy(search), emailMatches) && e == Project(u))
      && (forall i, j :: 0 <= i < j < |shown| ==> shown[i].createdAt >= shown[j].createdAt)
  {
    var all := Newest(rows, search, emailMatches);
    PagesTile(rows, search, limitNum, k, emailMatches);
    PagesEndIsProduct(k, limitNum, |all|);
    NewestShowsMatching(rows, search, emailMatches);
    assert all[..|all|] == all;
  }

  // ---------------------------------------------------------------------------------
  // POST /users

  datatype UserReply = UserCreated(user: Listed) | UserRefused(status: int, error: string)

  /** `email.split('@')[0] || 'User'`. */
  function DerivedName(email: string): (name: string)
    ensures name != ""
  {
    var local := Strings.Split(email, '@')[0];
    if local != "" then local else "User"
  }

  /** The derived name is the text before the first `@`, or `User` when that is empty. */
  lemma {:induction false} DerivedNameIsLocalPart(email: string)
    ensures DerivedName(email) != "" && '@' !in DerivedName(email)
    ensures |email| > 0 && email[0] != '@' ==>
      var n := DerivedName(email);
      |n| <= |email| && email[..|n|] == n && (|n| == |email| || email[|n|] == '@')
    ensures |email| == 0 || email[0] == '@' ==> DerivedName(email) == "User"
  {
    Strings.SplitHead(email, '@');
    var local := Strings.UpTo(email, '@');
    if |email| > 0 && email[0] != '@' {
      assert local == [email[0]] + Strings.UpTo(email[1..], '@');
    }
  }

  /** POST /users: both fields required, the email unused, then a verified non-admin user
      named after the email's local part, with the hashed password (`hash` is bcrypt).
      The reply does not depend on the credentials mail. */
  function CreateUserSpec(rows: seq<User>, body: Option<Body>, hash: string -> string, freshId: Id, now: Time)
    : (UserReply, seq<User>)
  {
    var email, password := Field(body, "email"), Field(body, "password");
    if !Truthy(email) || !Truthy(password) then (UserRefused(400, CREDENTIALS_REQUIRED), rows)
    else if !email.Str? then (UserRefused(500, SERVER_ERROR), rows)
    else if FindByEmail(rows, email.s).Some? then (UserRefused(400, EMAIL_TAKEN), rows)
    else if !password.Str? then (UserRefused(500, SERVER_ERROR), rows)
    else
      var u := NewUser(freshId, DerivedName(email.s), email.s, hash(password.s), None, None, Some(true), Some(false), now);
      if !SchemaValid(u) then (UserRefused(500, SERVER_ERROR), rows)
      else (UserCreated(Project(u)), rows + [u])
  }

  /** A missing credential or a used email is a 400 and writes nothing; the used-email
      check comes before the password is hashed. */
  lemma CreateUserRefusals(rows: seq<User>, body: Option<Body>, hash: string -> string, freshId: Id, now: Time)
    ensures var email, password := Field(body, "email"), Field(body, "password");
      var (reply, after) := CreateUserSpec(rows, body, hash, freshId, now);
      && (!Truthy(email) || !Truthy(password) ==> reply == UserRefused(400, CREDENTIALS_REQUIRED) && after == rows)
      && (Truthy(email) && Truthy(password) && email.Str? && FindByEmail(rows, email.s).Some? ==>
            reply == UserRefused(400, EMAIL_TAKEN) && after == rows)
      && (reply.UserRefused? ==> after == rows)
  {
  }

  /** A created user is appended: verified, not an admin, named after the email, holding
      the hash of the given password, and from then on the one the email finds. */
  lemma {:induction false} CreateUserEffect(rows: seq<User>, body: Option<Body>, hash: string -> string,
                                            freshId: Id, now: Time)
    requires CreateUserSpec(rows, body, hash, freshId, now).0.UserCreated?
    ensures var (reply, after) := CreateUserSpec(rows, body, hash, freshId, now);
      var email, password := Field(body, "email"), Field(body, "password");
      && email.Str? && password.Str?
      && |after| == |rows| + 1 && after[..|rows|] == rows
      && var u := after[|rows|];
      && u.id == freshId && u.email == email.s && u.name == DerivedName(email.s)
      && u.password == Some(hash(password.s)) && u.isVerified && !u.isAdmin
      && u.otp.None? && u.otpExpiry.None?
      && reply.user == Listed(freshId, email.s, now)
      && FindByEmail(after, email.s) == Some(|rows|)
  {
    var email, password := Field(body, "email"), Field(body, "password");
    var u := NewUser(freshId, DerivedName(email.s), email.s, hash(password.s), None, None, Some(true), Some(false), now);
    assert (rows + [u])[..|rows|] == rows;
    FindByEmailAppend(rows, u);
  }

  lemma {:induction false} FindByEmailAppend(rows: seq<User>, u: User)
    requires FindByEmail(rows, u.email).None?
    ensures FindByEmail(rows + [u], u.email) == Some(|rows|)
  {
    if |rows| > 0 {
      assert (rows + [u])[1..] == rows[1..] + [u];
      FindByEmailAppend(rows[1..], u);
    }
  }

  method CreateUser(users: UserCollection, body: Option<Body>, hash: string -> string, freshId: Id, now: Time)
    returns (reply: UserReply)
    requires users.Valid()
    requires forall j :: 0 <= j < |users.rows| ==> users.rows[j].id != freshId
    modifies users
    ensures users.Valid()
    ensures (reply, users.rows) == CreateUserSpec(old(users.rows), body, hash, freshId, now)
  {
    var email, password := Field(body, "email"), Field(body, "password");
    if !Truthy(email) || !Truthy(password) {
      return UserRefused(400, CREDENTIALS_REQUIRED);
    }
    if !email.Str? {
      return UserRefused(500, SERVER_ERROR);
    }
    var existing := FindByEmail(users.rows, email.s);
    if existing.Some? {
      return UserRefused(400, EMAIL_TAKEN);
    }
    if !password.Str? {
      return UserRefused(500, SERVER_ERROR);
    }
    var u := NewUser(freshId, DerivedName(email.s), email.s, hash(password.s), None, None, Some(true), Some(false), now);
    if !SchemaValid(u) {
      return UserRefused(500, SERVER_ERROR);
    }
    users.Insert(u);
    reply := UserCreated(Project(u));
  }

  // ---------------------------------------------------------------------------------
  // POST /gifts

  datatype GiftReply = GiftCreated(gift: GiftModel.GiftDoc) | GiftRefused(status: int, error: string)

  /** The object handed to `new Gift({...})`: the destructuring defaults (`scenarios` and
      `photos` `[]`, `memory`, `plan` and `audio` null, `lyrics` `''`), then non-array
      `scenarios` and `photos` replaced by `[]` and non-string `lyrics` by `''`. */
  function AdminGiftInput(owner: Id, body: Option<Body>): (input: GiftModel.GiftInput)
    ensures input.user == Some(owner) && input.templateId == Field(body, "templateId")
    ensures input.scenarios.Arr? && input.photos.Arr? && input.lyrics.Str?
    ensures !Field(body, "scenarios").Arr? ==> input.scenarios == Arr([])
    ensures !Field(body, "photos").Arr? ==> input.photos == Arr([])
    ensures !Field(body, "lyrics").Str? ==> input.lyrics == Str("")
    ensures Field(body, "scenarios").Arr? ==> input.scenarios == Field(body, "scenarios")
    ensures Field(body, "photos").Arr? ==> input.photos == Field(body, "photos")
    ensures Field(body, "lyrics").Str? ==> input.lyrics == Field(body, "lyrics")
    ensures !Nullish(input.memory) ==> input.memory == Field(body, "memory")
    ensures !Nullish(input.plan) ==> input.plan == Field(body, "plan")
    ensures !Nullish(input.audio) ==> input.audio == Field(body, "audio")
  {
    var scenarios := DefaultIfUndefined(Field(body, "scenarios"), Arr([]));
    var photos := DefaultIfUndefined(Field(body, "photos"), Arr([]));
    var lyrics := DefaultIfUndefined(Field(body, "lyrics"), Str(""));
    GiftModel.GiftInput(
      Some(owner),
      Field(body, "templateId"),
      if scenarios.Arr? then scenarios else Arr([]),
      DefaultIfUndefined(Field(body, "memory"), Null),
      DefaultIfUndefined(Field(body, "plan"), Null),
      if photos.Arr? then photos else Arr([]),
      DefaultIfUndefined(Field(body, "audio"), Null),
      if lyrics.Str? then lyrics else Str(""))
  }

  /** POST /gifts. `castId` is the cast of `userId` to a document id (`None`: the cast
      fails and `findById` throws). A gift that does not cast or validate fails its save. */
  function CreateGiftSpec(users: seq<User>, gifts: seq<GiftModel.GiftDoc>, body: Option<Body>,
                          castId: Json -> Option<Id>, freshId: Id, now: Time)
    : (GiftReply, seq<GiftModel.GiftDoc>)
  {
    var userId, templateId := Field(body, "userId"), Field(body, "templateId");
    if !Truthy(userId) || !Truthy(templateId) then (GiftRefused(400, GIFT_FIELDS_REQUIRED), gifts)
    else if castId(userId).None? then (GiftRefused(500, SERVER_ERROR), gifts)
    else
      match FindById(users, castId(userId).value)
      case None => (GiftRefused(404, USER_NOT_FOUND), gifts)
      case Some(i) =>
        match GiftModel.FromInput(AdminGiftInput(users[i].id, body), freshId, now)
        case None => (GiftRefused(500, SERVER_ERROR), gifts)
        case Some(d) =>
          if !GiftModel.SchemaValid(d) then (GiftRefused(500, SERVER_ERROR), gifts)
          else (GiftCreated(d), gifts + [d])
  }

  /** A missing `userId` or `templateId` is a 400 and an unknown user a 404, both before
      anything is written; every refusal leaves the gifts as they were. */
  lemma CreateGiftRefusals(users: seq<User>, gifts: seq<GiftModel.GiftDoc>, body: Option<Body>,
                           castId: Json -> Option<Id>, freshId: Id, now: Time)
    ensures var userId, templateId := Field(body, "userId"), Field(body, "templateId");
      var (reply, after) := CreateGiftSpec(users, gifts, body, castId, freshId, now);
      && (!Truthy(userId) || !Truthy(templateId) ==> reply == GiftRefused(400, GIFT_FIELDS_REQUIRED))
      && ((Truthy(userId) && Truthy(templateId) && castId(userId).Some? &&
           FindById(users, castId(userId).value).None?) ==> reply == GiftRefused(404, USER_NOT_FOUND))
      && (reply.GiftRefused? ==> after == gifts)
      && (reply.GiftCreated? ==> after == gifts + [reply.gift])
  {
  }

  /** A created gift belongs to the user `userId` names, has a listed template, and has
      the coerced fields: `[]` for non-array scenarios or photos, `''` for non-string
      lyrics, and the given values otherwise. */
  lemma {:induction false} CreatedGiftFields(users: seq<User>, gifts: seq<GiftModel.GiftDoc>, body: Option<Body>,
                                             castId: Json -> Option<Id>, freshId: Id, now: Time)
    requires CreateGiftSpec(users, gifts, body, castId, freshId, now).0.GiftCreated?
    ensures var d := CreateGiftSpec(users, gifts, body, castId, freshId, now).0.gift;
      var userId := Field(body, "userId");
      && castId(userId).Some? && FindById(users, castId(userId).value).Some?
      && d.user == Some(castId(userId).value)
      && d.id == freshId && d.createdAt == now
      && d.templateId.Some? && d.templateId.value in GiftModel.TEMPLATE_IDS
      && (!Field(body, "scenarios").Arr? ==> d.scenarios == [])
      && (!Field(body, "photos").Arr? ==> d.photos == [])
      && (!Field(body, "lyrics").Str? ==> d.lyrics == Some(""))
      && (Field(body, "lyrics").Str? ==> d.lyrics == Some(Field(body, "lyrics").s))
      && (Field(body, "scenarios").Arr? ==> CastEach(d.scenarios, Field(body, "scenarios").items))
      && (Field(body, "photos").Arr? ==> CastEach(d.photos, Field(body, "photos").items))
  {
    var userId := Field(body, "userId");
    var i := FindById(users, castId(userId).value).value;
    var input := AdminGiftInput(users[i].id, body);
    assert GiftModel.CastStrings([]) == Some([]);
  }

  /** `stored` holds the string cast of each element of `items`, in order (null for a
      null element). */
  ghost predicate CastEach(stored: seq<Option<string>>, items: seq<Json>) {
    |stored| == |items| && forall k :: 0 <= k < |items| ==> Some(stored[k]) == CastString(items[k])
  }

  /** A request naming a known user and a listed template, whose `scenarios` and
      `photos` arrays hold only strings and nulls and whose `memory`, `plan` and `audio`
      are left out or null, is saved: the gift is created, with null entries kept. */
  lemma {:induction false} CreateGiftAccepts(users: seq<User>, gifts: seq<GiftModel.GiftDoc>, body: Option<Body>,
                                             castId: Json -> Option<Id>, freshId: Id, now: Time)
    requires Truthy(Field(body, "userId")) && castId(Field(body, "userId")).Some?
    requires FindById(users, castId(Field(body, "userId")).value).Some?
    requires Field(body, "templateId").Str? && Field(body, "templateId").s in GiftModel.TEMPLATE_IDS
    requires Field(body, "scenarios").Arr? && forall k :: 0 <= k < |Field(body, "scenarios").items| ==>
      Field(body, "scenarios").items[k].Str? || Nullish(Field(body, "scenarios").items[k])
    requires Field(body, "photos").Arr? && forall k :: 0 <= k < |Field(body, "photos").items| ==>
      Field(body, "photos").items[k].Str? || Nullish(Field(body, "photos").items[k])
    requires Nullish(Field(body, "memory")) && Nullish(Field(body, "plan")) && Nullish(Field(body, "audio"))
    ensures var (reply, after) := CreateGiftSpec(users, gifts, body, castId, freshId, now);
      && reply.GiftCreated? && after == gifts + [reply.gift]
      && CastEach(reply.gift.scenarios, Field(body, "scenarios").items)
      && CastEach(reply.gift.photos, Field(body, "photos").items)
  {
    var i := FindById(users, castId(Field(body, "userId")).value).value;
    var input := AdminGiftInput(users[i].id, body);
    var scenarios, photos := Field(body, "scenarios").items, Field(body, "photos").items;
    assert forall k :: 0 <= k < |scenarios| ==> CastString(scenarios[k]).Some?;
    assert forall k :: 0 <= k < |photos| ==> CastString(photos[k]).Some?;
    assert input.memory == Null || input.memory == Undefined;
  }

  /** The gifts collection as the admin route writes it. */
  class GiftStore {
    var docs: seq<GiftModel.GiftDoc>

    constructor(docs: seq<GiftModel.GiftDoc>)
      ensures this.docs == docs
    {
      this.docs := docs;
    }

    /** `gift.save()` of a new gift. */
    method Insert(d: GiftModel.GiftDoc)
      modifies this
      ensures docs == old(docs) + [d]
    {
      docs := docs + [d];
    }
  }

  method CreateGift(users: UserCollection, gifts: GiftStore, body: Option<Body>, castId: Json -> Option<Id>,
                    freshId: Id, now: Time) returns (reply: GiftReply)
    modifies gifts
    ensures (reply, gifts.docs) == CreateGiftSpec(users.rows, old(gifts.docs), body, castId, freshId, now)
  {
    var userId, templateId := Field(body, "userId"), Field(body, "templateId");
    if !Truthy(userId) || !Truthy(templateId) {
      return GiftRefused(400, GIFT_FIELDS_REQUIRED);
    }
    var id := castId(userId);
    if id.None? {
      return GiftRefused(500, SERVER_ERROR);
    }
    var found := FindById(users.rows, id.value);
    if found.None? {
      return GiftRefused(404, USER_NOT_FOUND);
    }
    var gift := GiftModel.FromInput(AdminGiftInput(users.rows[found.value].id, body), freshId, now);
    if gift.None? || !GiftModel.SchemaValid(gift.value) {
      return GiftRefused(500, SERVER_ERROR);
    }
    gifts.Insert(gift.value);
    reply := GiftCreated(gift.value);
  }
}
