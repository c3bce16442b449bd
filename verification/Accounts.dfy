/**
 Accounts (users.go, and the register and OAuth handlers of main.go): the search for a free username,
 and what every run of the two handlers keeps true of the table.
 */
module Accounts {
  import opened Wrappers
  import Text

  datatype User = User(username: string, email: string, passwordHash: string,
                       provider: string, providerId: string, isAdmin: bool)

  type Table = seq<User>

  predicate Taken(rows: Table, username: string) {
    exists i :: 0 <= i < |rows| && rows[i].username == username
  }

  function ByUsername(rows: Table, username: string): (user: Option<User>)
    ensures user.Some? <==> Taken(rows, username)
    ensures user.Some? ==> user.value in rows && user.value.username == username
  {
    if rows == [] then None
    else if rows[0].username == username then Some(rows[0])
    else
      assert rows == [rows[0]] + rows[1..];
      ByUsername(rows[1..], username)
  }

  function ByProvider(rows: Table, provider: string, providerId: string): Option<User> {
    if rows == [] then None
    else if rows[0].provider == provider && rows[0].providerId == providerId then Some(rows[0])
    else ByProvider(rows[1..], provider, providerId)
  }

  function WithAdmin(rows: Table, username: string): Table {
    seq(|rows|, i requires 0 <= i < |rows| =>
                  if rows[i].username == username then rows[i].(isAdmin := true) else rows[i])
  }

  /** The users table: usernames are UNIQUE, rows are only added and made administrators. */
  class UserStore {
    var rows: Table

    ghost predicate Valid()
      reads this
    {
      UniqueNames(rows)
    }

    constructor ()
      ensures Valid() && rows == []
    {
      rows := [];
    }

    method CreateUser(username: string, email: string, passwordHash: string, provider: string, providerId: string)
      returns (ok: bool)
      requires Valid()
      modifies this
      ensures Valid() && ok == !Taken(old(rows), username)
      ensures rows == if ok then old(rows) + [User(username, email, passwordHash, provider, providerId, false)] else old(rows)
    {
      ok := !Taken(rows, username);
      if ok {
        rows := rows + [User(username, email, passwordHash, provider, providerId, false)];
      }
    }

    method GetByUsername(username: string) returns (user: Option<User>)
      ensures user == ByUsername(rows, username)
      ensures user.None? ==> forall i :: 0 <= i < |rows| ==> rows[i].username != username
      ensures user.Some? ==> user.value in rows && user.value.username == username
    {
      user := ByUsername(rows, username);
    }

    method GetByProvider(provider: string, providerId: string) returns (user: Option<User>)
      ensures user == ByProvider(rows, provider, providerId)
      ensures user.None? ==> forall i :: 0 <= i < |rows| ==> rows[i].provider != provider || rows[i].providerId != providerId
      ensures user.Some? ==> user.value in rows && user.value.provider == provider && user.value.providerId == providerId
    {
      NoSuchIdentity(rows, provider, providerId);
      user := ByProvider(rows, provider, providerId);
    }

    method SetAdmin(username: string)
      requires Valid()
      modifies this
      ensures Valid() && rows == WithAdmin(old(rows), username) && |rows| == |old(rows)|
      ensures forall i :: 0 <= i < |rows| ==>
                rows[i] == if old(rows)[i].username == username then old(rows)[i].(isAdmin := true) else old(rows)[i]
    {
      rows := WithAdmin(rows, username);
    }

    method CountUsers() returns (n: nat)
      ensures n == |rows|
    {
      n := |rows|;
    }

    /** The loop of the OAuth handler that looks for a username nobody has. */
    method FreeUsername(base: string) returns (username: string, ghost lookups: nat)
      ensures username == Candidate(base, FirstFree(rows, base, 0)) && !Taken(rows, username)
      ensures lookups == FirstFree(rows, base, 0) + 1 <= |rows| + 1
      ensures forall m :: 0 <= m < lookups - 1 ==> Taken(rows, Candidate(base, m))
      ensures username == if lookups == 1 then base else base + Text.PrintNat(lookups)
    {
      username := base;
      var i := 2;
      lookups := 1;
      Pigeonhole(rows, base, 0);
      while true
        invariant i >= 2 && lookups == i - 1 && username == Candidate(base, i - 2)
        invariant forall m :: 0 <= m < i - 2 ==> Taken(rows, Candidate(base, m))
        invariant FirstFree(rows, base, 0) == FirstFree(rows, base, i - 2)
        decreases |rows| + 2 - i
      {
        Pigeonhole(rows, base, i - 2);
        var user := GetByUsername(username);
        if user.None? {
          return;
        }
        username := base + Text.PrintNat(i);
        i := i + 1;
        lookups := lookups + 1;
      }
    }
  }

  // ---------------------------------------------------------------- the handlers, as the source has them

  /** Creates a local account; the first account, and the configured one, become administrators. */
  method SignUp(store: UserStore, adminUser: string, username: string, email: string, password: string, hash: Option<string>)
    returns (reply: Reply)
    requires store.Valid()
    modifies store
    ensures store.Valid()
    ensures (store.rows, reply) == Handle(old(store.rows), adminUser, LocalSignup(username, email, password, hash))
    ensures reply == BadRequest <==> username == "" || password == ""
    ensures reply == InternalError <==> username != "" && password != "" && hash.None?
    ensures reply == UsernameTaken <==> username != "" && password != "" && hash.Some? && Taken(old(store.rows), username)
    ensures reply.Session? ==> reply.username == username && hash.Some?
    ensures reply.Session? ==>
              Added(old(store.rows), store.rows, adminUser, username, email, hash.value, "", "")
    ensures !reply.Session? ==> store.rows == old(store.rows)
  {
    SignupReplies(store.rows, adminUser, username, email, password, hash);
    if username == "" || password == "" {
      return BadRequest;
    }
    if hash.None? {
      return InternalError;
    }
    var ok := store.CreateUser(username, email, hash.value, "", "");
    if !ok {
      return UsernameTaken;
    }
    var count := store.CountUsers();
    if count == 1 || (adminUser != "" && username == adminUser) {
      store.SetAdmin(username);
    }
    return Session(username);
  }

  /** Finds the account of an OAuth identity, or creates one under a free username.  The creation that
      follows the search cannot violate uniqueness, so there is always a session. */
  method OAuthCallback(store: UserStore, adminUser: string, provider: string, userId: string,
                       nickName: string, name: string, email: string)
    returns (reply: Reply)
    requires store.Valid()
    modifies store
    ensures store.Valid()
    ensures (store.rows, reply) == Handle(old(store.rows), adminUser, OAuthLogin(provider, userId, nickName, name, email))
    ensures reply.Session?
    ensures HasIdentity(old(store.rows), provider, userId) ==>
              && store.rows == old(store.rows)
              && exists i :: 0 <= i < |store.rows| && IsIdentity(store.rows[i], provider, userId)
                             && store.rows[i].username == reply.username
    ensures !HasIdentity(old(store.rows), provider, userId) ==>
              && !Taken(old(store.rows), reply.username)
              && Added(old(store.rows), store.rows, adminUser, reply.username, email, "", provider, userId)
              && FirstFreeFrom(old(store.rows), reply.username,
                               if nickName != "" then nickName else if name != "" then name else "user-" + userId)
  {
    LoginReplies(store.rows, adminUser, provider, userId, nickName, name, email);
    var dbUser := store.GetByProvider(provider, userId);
    if dbUser.None? {
      var base := nickName;
      if base == "" {
        base := name;
      }
      if base == "" {
        base := "user-" + userId;
      }
      var username, _ := store.FreeUsername(base);
      ghost var before := store.rows;
      var ok := store.CreateUser(username, email, "", provider, userId);
      if !ok {
        return InternalError;
      }
      var count := store.CountUsers();
      if count == 1 || (adminUser != "" && username == adminUser) {
        store.SetAdmin(username);
      }
      AddedIsFound(before, User(username, email, "", provider, userId, false), adminUser);
      dbUser := store.GetByUsername(username);
      if dbUser.None? {
        return InternalError;
      }
    }
    return Session(dbUser.value.username);
  }

  ghost predicate UniqueNames(rows: Table) {
    forall i, j :: 0 <= i < j < |rows| ==> rows[i].username != rows[j].username
  }

  // ---------------------------------------------------------------- the search for a free name

  /** base, base2, base3, ... */
  function Candidate(base: string, n: nat): string {
    if n == 0 then base else base + Text.PrintNat(n + 1)
  }

  lemma CandidatesDiffer(base: string, m: nat, n: nat)
    requires Candidate(base, m) == Candidate(base, n)
    ensures m == n
  {
    Text.PrintedValue(m + 1);
    Text.PrintedValue(n + 1);
    assert m > 0 ==> Candidate(base, m)[|base|..] == Text.PrintNat(m + 1);
    assert n > 0 ==> Candidate(base, n)[|base|..] == Text.PrintNat(n + 1);
    if m > 0 && n > 0 {
      Text.PrintNatInjective(m + 1, n + 1);
    }
  }

  function Candidates(base: string, n: nat): set<string> {
    set m | 0 <= m < n :: Candidate(base, m)
  }

  lemma {:induction false} CountCandidates(base: string, n: nat)
    ensures |Candidates(base, n)| == n
  {
    if n > 0 {
      CountCandidates(base, n - 1);
      if Candidate(base, n - 1) in Candidates(base, n - 1) {
        var m :| 0 <= m < n - 1 && Candidate(base, m) == Candidate(base, n - 1);
        CandidatesDiffer(base, m, n - 1);
      }
      assert Candidates(base, n) == Candidates(base, n - 1) + {Candidate(base, n - 1)};
    }
  }

  function Names(rows: Table): set<string> {
    set i | 0 <= i < |rows| :: rows[i].username
  }

  lemma {:induction false} CountNames(rows: Table)
    ensures |Names(rows)| <= |rows|
  {
    if rows != [] {
      var front := rows[..|rows|-1];
      CountNames(front);
      assert Names(rows) == Names(front) + {rows[|rows|-1].username};
    }
  }

  lemma SubsetIsSmaller(a: set<string>, b: set<string>)
    requires a <= b
    ensures |a| <= |b|
  {
    assert b == a + (b - a);
  }

  /** The candidates differ, so no more of them can be taken than there are users. */
  lemma Pigeonhole(rows: Table, base: string, n: nat)
    requires forall m :: 0 <= m < n ==> Taken(rows, Candidate(base, m))
    ensures n <= |rows|
  {
    CountCandidates(base, n);
    CountNames(rows);
    assert Candidates(base, n) <= Names(rows);
    SubsetIsSmaller(Candidates(base, n), Names(rows));
  }

  /** The number of the first candidate from `n` on that is not taken. */
  function FirstFree(rows: Table, base: string, n: nat): (free: nat)
    requires forall m :: 0 <= m < n ==> Taken(rows, Candidate(base, m))
    ensures n <= free <= |rows|
    ensures !Taken(rows, Candidate(base, free))
    ensures forall m :: 0 <= m < free ==> Taken(rows, Candidate(base, m))
    decreases |rows| + 1 - n
  {
    Pigeonhole(rows, base, n);
    if !Taken(rows, Candidate(base, n)) then n
    else
      Pigeonhole(rows, base, n + 1);
      FirstFree(rows, base, n + 1)
  }

  // ---------------------------------------------------------------- the handlers, as functions of the table

  /** What the handlers receive; for a sign-up, trimmed, and with the outcome of hashing the password. */
  datatype Event =
    | LocalSignup(username: string, email: string, password: string, hash: Option<string>)
    | OAuthLogin(provider: string, userId: string, nickName: string, name: string, email: string)

  datatype Reply = BadRequest | InternalError | UsernameTaken | Session(username: string)

  function AfterCreate(rows: Table, user: User, adminUser: string): Table {
    var added := rows + [user];
    if |added| == 1 || (adminUser != "" && user.username == adminUser) then WithAdmin(added, user.username) else added
  }

  function Base(nickName: string, name: string, userId: string): string {
    if nickName != "" then nickName else if name != "" then name else "user-" + userId
  }

  function Handle(rows: Table, adminUser: string, e: Event): (Table, Reply) {
    match e
    case LocalSignup(username, email, password, hash) =>
      if username == "" || password == "" then (rows, BadRequest)
      else if hash.None? then (rows, InternalError)
      else if Taken(rows, username) then (rows, UsernameTaken)
      else (AfterCreate(rows, User(username, email, hash.value, "", "", false), adminUser), Session(username))
    case OAuthLogin(provider, userId, nickName, name, email) =>
      match ByProvider(rows, provider, userId)
      case Some(user) => (rows, Session(user.username))
      case None =>
        var base := Base(nickName, name, userId);
        var username := Candidate(base, FirstFree(rows, base, 0));
        (AfterCreate(rows, User(username, email, "", provider, userId, false), adminUser), Session(username))
  }

  // ---------------------------------------------------------------- what the handlers answer and store

  predicate IsIdentity(user: User, provider: string, userId: string) {
    user.provider == provider && user.providerId == userId
  }

  predicate HasIdentity(rows: Table, provider: string, userId: string) {
    exists i :: 0 <= i < |rows| && IsIdentity(rows[i], provider, userId)
  }

  /** One row with these fields has been added at the end and no other row has changed; it is an
      administrator's if it is the first of all, or its name is the configured one. */
  predicate Added(rows: Table, later: Table, adminUser: string,
                  username: string, email: string, passwordHash: string, provider: string, userId: string) {
    later == rows + [User(username, email, passwordHash, provider, userId,
                          rows == [] || (adminUser != "" && username == adminUser))]
  }

  /** `username` is the first of base, base2, base3, ... that no row has. */
  ghost predicate FirstFreeFrom(rows: Table, username: string, base: string) {
    !Taken(rows, username) &&
    (username == base ||
     (Taken(rows, base) &&
      exists n: nat :: n >= 2 && username == base + Text.PrintNat(n) &&
                       forall m: nat :: 2 <= m < n ==> Taken(rows, base + Text.PrintNat(m))))
  }

  lemma AfterCreateAdds(rows: Table, user: User, adminUser: string)
    requires !Taken(rows, user.username) && !user.isAdmin
    ensures Added(rows, AfterCreate(rows, user, adminUser), adminUser,
                  user.username, user.email, user.passwordHash, user.provider, user.providerId)
  {
    var added := rows + [user];
    if |added| == 1 || (adminUser != "" && user.username == adminUser) {
      assert WithAdmin(added, user.username) == rows + [user.(isAdmin := true)];
    }
  }

  /** A sign-up is refused without a name or a password, when hashing fails, and when the name is taken,
      each with its own answer and without touching the table; otherwise the new account is added as
      given, and the session is for it. */
  lemma SignupReplies(rows: Table, adminUser: string, username: string, email: string, password: string, hash: Option<string>)
    ensures var (later, reply) := Handle(rows, adminUser, LocalSignup(username, email, password, hash));
            && (reply == BadRequest <==> username == "" || password == "")
            && (reply == InternalError <==> username != "" && password != "" && hash.None?)
            && (reply == UsernameTaken <==> username != "" && password != "" && hash.Some? && Taken(rows, username))
            && (reply.Session? ==>
                  && reply.username == username && hash.Some?
                  && Added(rows, later, adminUser, username, email, hash.value, "", ""))
            && (!reply.Session? ==> later == rows)
  {
    if hash.Some? && !Taken(rows, username) {
      AfterCreateAdds(rows, User(username, email, hash.value, "", "", false), adminUser);
    }
  }

  lemma CandidateIsFirstFree(rows: Table, base: string)
    ensures FirstFreeFrom(rows, Candidate(base, FirstFree(rows, base, 0)), base)
  {
    hide FirstFree;
    var free := FirstFree(rows, base, 0);
    if free > 0 {
      assert Taken(rows, Candidate(base, 0));
      forall m: nat | 2 <= m < free + 1 ensures Taken(rows, base + Text.PrintNat(m)) {
        assert Taken(rows, Candidate(base, m - 1));
      }
    }
  }

  /** An OAuth login with a known identity gives a session for its account and leaves the table alone;
      one with a new identity adds an account, with the address reported and no password, under the first
      free name built on the nick name, else the name, else "user-" and the id. */
  lemma LoginReplies(rows: Table, adminUser: string, provider: string, userId: string,
                     nickName: string, name: string, email: string)
    ensures var (later, reply) := Handle(rows, adminUser, OAuthLogin(provider, userId, nickName, name, email));
            && reply.Session?
            && (HasIdentity(rows, provider, userId) ==>
                  && later == rows
                  && exists i :: 0 <= i < |rows| && IsIdentity(rows[i], provider, userId) && rows[i].username == reply.username)
            && (!HasIdentity(rows, provider, userId) ==>
                  && !Taken(rows, reply.username)
                  && Added(rows, later, adminUser, reply.username, email, "", provider, userId)
                  && FirstFreeFrom(rows, reply.username,
                                   if nickName != "" then nickName else if name != "" then name else "user-" + userId))
  {
    NoSuchIdentity(rows, provider, userId);
    assert HasIdentity(rows, provider, userId) <==> ByProvider(rows, provider, userId).Some?;
    if ByProvider(rows, provider, userId).None? {
      var base := Base(nickName, name, userId);
      var username := Candidate(base, FirstFree(rows, base, 0));
      CandidateIsFirstFree(rows, base);
      AfterCreateAdds(rows, User(username, email, "", provider, userId, false), adminUser);
    }
  }

  lemma AddedIsFound(rows: Table, user: User, adminUser: string)
    ensures Taken(AfterCreate(rows, user, adminUser), user.username)
  {
    assert AfterCreate(rows, user, adminUser)[|rows|].username == user.username;
  }

  /** The table after a run of the handlers, one after the other, from an empty table. */
  function After(adminUser: string, run: seq<Event>): Table {
    if run == [] then [] else Handle(After(adminUser, run[..|run|-1]), adminUser, run[|run|-1]).0
  }

  // ---------------------------------------------------------------- what every run keeps true

  ghost predicate OneAccountEach(rows: Table) {
    forall i, j :: 0 <= i < j < |rows| && (rows[i].provider != "" || rows[i].providerId != "") ==>
      rows[i].provider != rows[j].provider || rows[i].providerId != rows[j].providerId
  }

  ghost predicate RightAdmins(rows: Table, adminUser: string) {
    forall i :: 0 <= i < |rows| ==>
      (rows[i].isAdmin <==> i == 0 || (adminUser != "" && rows[i].username == adminUser))
  }

  ghost predicate Inv(rows: Table, adminUser: string) {
    UniqueNames(rows) && OneAccountEach(rows) && RightAdmins(rows, adminUser)
  }

  /** A row once made keeps everything but its administrator flag. */
  ghost predicate Extends(rows: Table, later: Table) {
    && |rows| <= |later|
    && forall i :: 0 <= i < |rows| ==>
         && later[i].username == rows[i].username
         && later[i].provider == rows[i].provider
         && later[i].providerId == rows[i].providerId
  }

  lemma {:induction false} NoSuchIdentity(rows: Table, provider: string, providerId: string)
    ensures ByProvider(rows, provider, providerId).None? <==>
            forall i :: 0 <= i < |rows| ==> rows[i].provider != provider || rows[i].providerId != providerId
    ensures ByProvider(rows, provider, providerId).Some? ==>
            exists i :: 0 <= i < |rows| && rows[i] == ByProvider(rows, provider, providerId).value
                        && rows[i].provider == provider && rows[i].providerId == providerId
  {
    if rows != [] {
      NoSuchIdentity(rows[1..], provider, providerId);
      assert rows == [rows[0]] + rows[1..];
    }
  }

  lemma CreateKeeps(rows: Table, user: User, adminUser: string)
    requires Inv(rows, adminUser) && !Taken(rows, user.username) && !user.isAdmin
    requires (user.provider == "" && user.providerId == "") || ByProvider(rows, user.provider, user.providerId).None?
    ensures Inv(AfterCreate(rows, user, adminUser), adminUser) && Extends(rows, AfterCreate(rows, user, adminUser))
  {
    NoSuchIdentity(rows, user.provider, user.providerId);
  }

  lemma HandleKeeps(rows: Table, adminUser: string, e: Event)
    requires Inv(rows, adminUser)
    ensures Inv(Handle(rows, adminUser, e).0, adminUser) && Extends(rows, Handle(rows, adminUser, e).0)
  {
    hide AfterCreate, Inv, Taken;
    match e
    case LocalSignup(username, email, password, hash) =>
      if hash.Some? && !Taken(rows, username) {
        CreateKeeps(rows, User(username, email, hash.value, "", "", false), adminUser);
      }
    case OAuthLogin(provider, userId, nickName, name, email) =>
      if ByProvider(rows, provider, userId).None? {
        var base := Base(nickName, name, userId);
        CreateKeeps(rows, User(Candidate(base, FirstFree(rows, base, 0)), email, "", provider, userId, false), adminUser);
      }
  }

  /** In every run usernames are unique, every OAuth identity has at most one account, and the
      administrators are exactly the first account and the one named by a non-empty DOCK_ADMIN_USER. */
  lemma {:induction false} AccountInvariant(adminUser: string, run: seq<Event>)
    ensures Inv(After(adminUser, run), adminUser)
  {
    if run != [] {
      AccountInvariant(adminUser, run[..|run|-1]);
      HandleKeeps(After(adminUser, run[..|run|-1]), adminUser, run[|run|-1]);
    }
  }

  lemma {:induction false} LaterExtends(adminUser: string, run: seq<Event>, n: nat)
    requires n <= |run|
    ensures Extends(After(adminUser, run[..n]), After(adminUser, run))
    decreases |run|
  {
    if n == |run| {
      assert run[..n] == run;
    } else {
      var before := run[..|run|-1];
      LaterExtends(adminUser, before, n);
      assert before[..n] == run[..n];
      AccountInvariant(adminUser, before);
      HandleKeeps(After(adminUser, before), adminUser, run[|run|-1]);
    }
  }

  /** The reply to the event at position `i` of a run. */
  function ReplyAt(adminUser: string, run: seq<Event>, i: nat): Reply
    requires i < |run|
  {
    Handle(After(adminUser, run[..i]), adminUser, run[i]).1
  }

  /** In every run, whoever is given a session for signing up had no account before. */
  lemma SignupIsForNewUsers(adminUser: string, run: seq<Event>, i: nat)
    requires i < |run| && run[i].LocalSignup? && ReplyAt(adminUser, run, i).Session?
    ensures ReplyAt(adminUser, run, i) == Session(run[i].username)
    ensures !Taken(After(adminUser, run[..i]), run[i].username)
    ensures Taken(After(adminUser, run[..i+1]), run[i].username)
  {
    hide Handle, After;
    var rows := After(adminUser, run[..i]);
    SignupReplies(rows, adminUser, run[i].username, run[i].email, run[i].password, run[i].hash);
    AfterSnoc(adminUser, run[..i], run[i]);
    assert run[..i+1] == run[..i] + [run[i]];
    var later := After(adminUser, run[..i+1]);
    assert later[|later|-1].username == run[i].username;
  }

  lemma AfterSnoc(adminUser: string, run: seq<Event>, e: Event)
    ensures After(adminUser, run + [e]) == Handle(After(adminUser, run), adminUser, e).0
  {
    assert (run + [e])[..|run|] == run;
  }

  /** After an OAuth login the identity has an account with the username of the session. */
  lemma LoginHasAccount(rows: Table, adminUser: string, e: Event)
    requires Inv(rows, adminUser) && e.OAuthLogin?
    ensures var (later, reply) := Handle(rows, adminUser, e);
            reply.Session? && exists i :: AccountAt(later, i, e) && later[i].username == reply.username
  {
    var (later, reply) := Handle(rows, adminUser, e);
    NoSuchIdentity(rows, e.provider, e.userId);
    if ByProvider(rows, e.provider, e.userId).Some? {
      var i :| 0 <= i < |rows| && rows[i] == ByProvider(rows, e.provider, e.userId).value
               && rows[i].provider == e.provider && rows[i].providerId == e.userId;
      assert AccountAt(later, i, e);
    } else {
      assert AccountAt(later, |rows|, e);
    }
  }

  predicate AccountAt(rows: Table, i: int, e: Event)
    requires e.OAuthLogin?
  {
    0 <= i < |rows| && IsIdentity(rows[i], e.provider, e.userId)
  }

  lemma LoginFindsAccount(rows: Table, adminUser: string, e: Event, i: nat)
    requires Inv(rows, adminUser) && e.OAuthLogin? && AccountAt(rows, i, e)
    requires e.provider != "" || e.userId != ""
    ensures Handle(rows, adminUser, e) == (rows, Session(rows[i].username))
  {
    NoSuchIdentity(rows, e.provider, e.userId);
  }

  /** Repeated logins with one OAuth identity always yield the same username, whatever happens in
      between and whatever nick name, name and address the provider reports. */
  lemma {:induction false} SameUserEveryTime(adminUser: string, run: seq<Event>, i: nat, j: nat)
    requires i < j < |run| && run[i].OAuthLogin? && run[j].OAuthLogin?
    requires run[i].provider == run[j].provider && run[i].userId == run[j].userId
    requires run[i].provider != "" || run[i].userId != ""
    ensures ReplyAt(adminUser, run, i).Session?
    ensures ReplyAt(adminUser, run, j) == ReplyAt(adminUser, run, i)
  {
    hide Handle, Inv;
    var first, second := run[..i+1], run[..j];
    AccountInvariant(adminUser, run[..i]);
    AccountInvariant(adminUser, second);
    assert first[..i] == run[..i] && second[..i+1] == first;
    LoginHasAccount(After(adminUser, run[..i]), adminUser, run[i]);
    var rows := After(adminUser, first);
    var k :| AccountAt(rows, k, run[i]) && rows[k].username == ReplyAt(adminUser, run, i).username;
    LaterExtends(adminUser, second, i + 1);
    LoginFindsAccount(After(adminUser, second), adminUser, run[j], k);
  }
}
