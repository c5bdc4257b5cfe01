/**
 * Usage metrics of the analytics web front end: who logged in, logged out and
 * queried, counted per user name and per IP address.
 *
 * Every event is a put-if-absent of a zero counter followed by an increment,
 * on two counter maps, plus a put-if-absent of the user's record. Counters are
 * unbounded naturals here.
 */
module UsageMetrics {

  /** The per-user record kept in the users map. Its own bookkeeping (the
      LoggedIn, LoggedOut and Queried calls on it) is not part of this model. */
  datatype MetricsUser = MetricsUser(userName: string)

  /** putIfAbsent(key, 0) followed by incrementAndGet on key: exactly the counter of key
      moves, by one, starting from 0 when key was absent; every other counter is kept. */
  function Increment(m: map<string, nat>, key: string): (m': map<string, nat>)
    ensures m'.Keys == m.Keys + {key}
    ensures key in m ==> m'[key] == m[key] + 1
    ensures key !in m ==> m'[key] == 1
    ensures forall k :: k in m && k != key ==> m'[k] == m[k]
  {
    m[key := (if key in m then m[key] else 0) + 1]
  }

  /** putIfAbsent on the users map: an existing record is never replaced. */
  function PutIfAbsent(users: map<string, MetricsUser>, name: string, user: MetricsUser)
    : (users': map<string, MetricsUser>)
    ensures users'.Keys == users.Keys + {name}
    ensures forall k :: k in users ==> users'[k] == users[k]
    ensures name !in users ==> users'[name] == user
  {
    if name in users then users else users[name := user]
  }

  /** Every counter present in the map has been incremented at least once. */
  ghost predicate AllPositive(m: map<string, nat>) {
    forall k :: k in m ==> m[k] >= 1
  }

  /** No counter of m disappeared or went down in m'. */
  ghost predicate NoneDecreased(m: map<string, nat>, m': map<string, nat>) {
    m.Keys <= m'.Keys && forall k :: k in m ==> m[k] <= m'[k]
  }

  /** An increment keeps every counter positive and lowers none. */
  lemma IncrementGrows(m: map<string, nat>, key: string)
    requires AllPositive(m)
    ensures AllPositive(Increment(m, key))
    ensures NoneDecreased(m, Increment(m, key))
  {
  }

  /** The sum of all counters of a map. */
  ghost function Total(m: map<string, nat>): nat
    decreases |m|
  {
    if m == map[] then 0
    else
      var k :| k in m;
      assert |m - {k}| < |m| by { assert (m - {k}).Keys == m.Keys - {k}; }
      m[k] + Total(m - {k})
  }

  /** Total may be computed by taking out any key first. */
  lemma {:induction false} TotalWithout(m: map<string, nat>, key: string)
    requires key in m
    ensures Total(m) == m[key] + Total(m - {key})
    decreases |m|
  {
    var k :| k in m && Total(m) == m[k] + Total(m - {k});
    if k != key {
      var mk, mkey := m - {k}, m - {key};
      assert (mk - {key}) == (mkey - {k});
      assert |mk| < |m| by { assert mk.Keys == m.Keys - {k}; }
      assert |mkey| < |m| by { assert mkey.Keys == m.Keys - {key}; }
      TotalWithout(mk, key);
      TotalWithout(mkey, k);
    }
  }

  /** Every increment raises the sum of the map by exactly one. */
  lemma TotalIncrement(m: map<string, nat>, key: string)
    ensures Total(Increment(m, key)) == Total(m) + 1
  {
    var m' := Increment(m, key);
    TotalWithout(m', key);
    assert m' - {key} == m - {key};
    if key in m {
      TotalWithout(m, key);
    } else {
      assert m - {key} == m;
    }
  }

  /** The seven maps of the metrics, with the number of events of each kind seen so far. */
  datatype Metrics = Metrics(
    users: map<string, MetricsUser>,
    uniqueUserLoginCount: map<string, nat>,
    uniqueIpLoginCount: map<string, nat>,
    uniqueUserLogoutCount: map<string, nat>,
    uniqueIpLogoutCount: map<string, nat>,
    uniqueUserQueryCount: map<string, nat>,
    uniqueIpQueryCount: map<string, nat>,
    logins: nat,
    logouts: nat,
    queries: nat)

  /** The metrics of a fresh instance: every map empty, no event seen. */
  function Empty(): Metrics {
    Metrics(map[], map[], map[], map[], map[], map[], map[], 0, 0, 0)
  }

  /** The effect of a login by user: the user's record is put if absent, and the login
      counters of both login maps move under the user's name. */
  function LoggedIn(m: Metrics, user: string): Metrics {
    m.(users := PutIfAbsent(m.users, user, MetricsUser(user)),
       uniqueUserLoginCount := Increment(m.uniqueUserLoginCount, user),
       uniqueIpLoginCount := Increment(m.uniqueIpLoginCount, user),
       logins := m.logins + 1)
  }

  /** The effect of a logout by user, likewise on the two logout maps. */
  function LoggedOut(m: Metrics, user: string): Metrics {
    m.(users := PutIfAbsent(m.users, user, MetricsUser(user)),
       uniqueUserLogoutCount := Increment(m.uniqueUserLogoutCount, user),
       uniqueIpLogoutCount := Increment(m.uniqueIpLogoutCount, user),
       logouts := m.logouts + 1)
  }

  /** The effect of a query by user from ip: one counter under the user, one under the address. */
  function MadeQuery(m: Metrics, user: string, ip: string): Metrics {
    m.(users := PutIfAbsent(m.users, user, MetricsUser(user)),
       uniqueUserQueryCount := Increment(m.uniqueUserQueryCount, user),
       uniqueIpQueryCount := Increment(m.uniqueIpQueryCount, ip),
       queries := m.queries + 1)
  }

  /** The count a counter map holds for key; an absent key counts 0. */
  function CountOf(m: map<string, nat>, key: string): nat {
    if key in m then m[key] else 0
  }

  /** A login moves the user's count in both login maps by one and nothing else. */
  lemma LoginMovesOwnCounters(m: Metrics, user: string)
    ensures CountOf(LoggedIn(m, user).uniqueUserLoginCount, user) == CountOf(m.uniqueUserLoginCount, user) + 1
    ensures CountOf(LoggedIn(m, user).uniqueIpLoginCount, user) == CountOf(m.uniqueIpLoginCount, user) + 1
    ensures forall k :: k != user ==>
              CountOf(LoggedIn(m, user).uniqueUserLoginCount, k) == CountOf(m.uniqueUserLoginCount, k)
              && CountOf(LoggedIn(m, user).uniqueIpLoginCount, k) == CountOf(m.uniqueIpLoginCount, k)
    ensures LoggedIn(m, user).uniqueUserLogoutCount == m.uniqueUserLogoutCount
    ensures LoggedIn(m, user).uniqueIpLogoutCount == m.uniqueIpLogoutCount
    ensures LoggedIn(m, user).uniqueUserQueryCount == m.uniqueUserQueryCount
    ensures LoggedIn(m, user).uniqueIpQueryCount == m.uniqueIpQueryCount
  {
  }

  /** A logout moves the user's count in both logout maps by one and nothing else. */
  lemma LogoutMovesOwnCounters(m: Metrics, user: string)
    ensures CountOf(LoggedOut(m, user).uniqueUserLogoutCount, user) == CountOf(m.uniqueUserLogoutCount, user) + 1
    ensures CountOf(LoggedOut(m, user).uniqueIpLogoutCount, user) == CountOf(m.uniqueIpLogoutCount, user) + 1
    ensures forall k :: k != user ==>
              CountOf(LoggedOut(m, user).uniqueUserLogoutCount, k) == CountOf(m.uniqueUserLogoutCount, k)
              && CountOf(LoggedOut(m, user).uniqueIpLogoutCount, k) == CountOf(m.uniqueIpLogoutCount, k)
    ensures LoggedOut(m, user).uniqueUserLoginCount == m.uniqueUserLoginCount
    ensures LoggedOut(m, user).uniqueIpLoginCount == m.uniqueIpLoginCount
    ensures LoggedOut(m, user).uniqueUserQueryCount == m.uniqueUserQueryCount
    ensures LoggedOut(m, user).uniqueIpQueryCount == m.uniqueIpQueryCount
  {
  }

  /** A query moves the user's query count and the address's query count by one each,
      and nothing else. */
  lemma QueryMovesOwnCounters(m: Metrics, user: string, ip: string)
    ensures CountOf(MadeQuery(m, user, ip).uniqueUserQueryCount, user) == CountOf(m.uniqueUserQueryCount, user) + 1
    ensures CountOf(MadeQuery(m, user, ip).uniqueIpQueryCount, ip) == CountOf(m.uniqueIpQueryCount, ip) + 1
    ensures forall k :: k != user ==>
              CountOf(MadeQuery(m, user, ip).uniqueUserQueryCount, k) == CountOf(m.uniqueUserQueryCount, k)
    ensures forall k :: k != ip ==>
              CountOf(MadeQuery(m, user, ip).uniqueIpQueryCount, k) == CountOf(m.uniqueIpQueryCount, k)
    ensures MadeQuery(m, user, ip).uniqueUserLoginCount == m.uniqueUserLoginCount
    ensures MadeQuery(m, user, ip).uniqueIpLoginCount == m.uniqueIpLoginCount
    ensures MadeQuery(m, user, ip).uniqueUserLogoutCount == m.uniqueUserLogoutCount
    ensures MadeQuery(m, user, ip).uniqueIpLogoutCount == m.uniqueIpLogoutCount
  {
  }

  /** Each user's record is filed under its own name. */
  ghost predicate UsersFiledByName(users: map<string, MetricsUser>) {
    forall u :: u in users ==> users[u].userName == u
  }

  /** What holds of the metrics after any sequence of events. */
  ghost predicate Invariant(m: Metrics) {
    && UsersFiledByName(m.users)
    // the "Ip" login and logout maps are keyed by user name, so they mirror the user maps
    && m.uniqueIpLoginCount == m.uniqueUserLoginCount
    && m.uniqueIpLogoutCount == m.uniqueUserLogoutCount
    // every user-keyed counter belongs to a known user
    && m.uniqueUserLoginCount.Keys <= m.users.Keys
    && m.uniqueUserLogoutCount.Keys <= m.users.Keys
    && m.uniqueUserQueryCount.Keys <= m.users.Keys
    // every counter present has been incremented at least once
    && AllPositive(m.uniqueUserLoginCount)
    && AllPositive(m.uniqueUserLogoutCount)
    && AllPositive(m.uniqueUserQueryCount)
    && AllPositive(m.uniqueIpQueryCount)
    // each map's counters add up to the number of events of its kind
    && Total(m.uniqueUserLoginCount) == m.logins
    && Total(m.uniqueUserLogoutCount) == m.logouts
    && Total(m.uniqueUserQueryCount) == m.queries
    && Total(m.uniqueIpQueryCount) == m.queries
  }

  lemma EmptyInvariant()
    ensures Invariant(Empty())
  {
  }

  lemma UsersAfterEvent(users: map<string, MetricsUser>, user: string)
    requires UsersFiledByName(users)
    ensures UsersFiledByName(PutIfAbsent(users, user, MetricsUser(user)))
  {
  }

  /** A login keeps the invariant and changes only the users map and the two login maps,
      none of whose counters goes down. */
  lemma LoginPreserves(m: Metrics, user: string)
    requires Invariant(m)
    ensures Invariant(LoggedIn(m, user))
    ensures user in LoggedIn(m, user).users
    ensures NoneDecreased(m.uniqueUserLoginCount, LoggedIn(m, user).uniqueUserLoginCount)
  {
    UsersAfterEvent(m.users, user);
    IncrementGrows(m.uniqueUserLoginCount, user);
    TotalIncrement(m.uniqueUserLoginCount, user);
  }

  /** A logout keeps the invariant; its counters only grow. */
  lemma LogoutPreserves(m: Metrics, user: string)
    requires Invariant(m)
    ensures Invariant(LoggedOut(m, user))
    ensures user in LoggedOut(m, user).users
    ensures NoneDecreased(m.uniqueUserLogoutCount, LoggedOut(m, user).uniqueUserLogoutCount)
  {
    UsersAfterEvent(m.users, user);
    IncrementGrows(m.uniqueUserLogoutCount, user);
    TotalIncrement(m.uniqueUserLogoutCount, user);
  }

  /** A query keeps the invariant: both query maps gain exactly one in total, so they keep
      adding up to the number of queries. */
  lemma QueryPreserves(m: Metrics, user: string, ip: string)
    requires Invariant(m)
    ensures Invariant(MadeQuery(m, user, ip))
    ensures user in MadeQuery(m, user, ip).users
    ensures NoneDecreased(m.uniqueUserQueryCount, MadeQuery(m, user, ip).uniqueUserQueryCount)
    ensures NoneDecreased(m.uniqueIpQueryCount, MadeQuery(m, user, ip).uniqueIpQueryCount)
  {
    UsersAfterEvent(m.users, user);
    IncrementGrows(m.uniqueUserQueryCount, user);
    IncrementGrows(m.uniqueIpQueryCount, ip);
    TotalIncrement(m.uniqueUserQueryCount, user);
    TotalIncrement(m.uniqueIpQueryCount, ip);
  }

  /** The three events the metrics record. */
  datatype Event = Login(user: string) | Logout(user: string) | Query(user: string, ip: string)

  function Apply(m: Metrics, e: Event): Metrics {
    match e
    case Login(u) => LoggedIn(m, u)
    case Logout(u) => LoggedOut(m, u)
    case Query(u, ip) => MadeQuery(m, u, ip)
  }

  /** The metrics of a fresh instance after the given events, oldest first. */
  function Replay(events: seq<Event>): Metrics
    decreases |events|
  {
    if events == [] then Empty() else Apply(Replay(events[..|events| - 1]), events[|events| - 1])
  }

  function CountQueries(events: seq<Event>): nat
    decreases |events|
  {
    if events == [] then 0
    else CountQueries(events[..|events| - 1]) + (if events[|events| - 1].Query? then 1 else 0)
  }

  /** After any sequence of events the invariant holds; in particular both query maps add
      up to the number of queries in the sequence. */
  lemma {:induction false} ReplayInvariant(events: seq<Event>)
    ensures Invariant(Replay(events))
    ensures Replay(events).queries == CountQueries(events)
    decreases |events|
  {
    if events == [] {
      EmptyInvariant();
    } else {
      var m := Replay(events[..|events| - 1]);
      ReplayInvariant(events[..|events| - 1]);
      match events[|events| - 1]
      case Login(u) => LoginPreserves(m, u);
      case Logout(u) => LogoutPreserves(m, u);
      case Query(u, ip) => QueryPreserves(m, u, ip);
    }
  }

  /** Every record of a is also in b, unchanged. */
  ghost predicate KeptIn(a: map<string, MetricsUser>, b: map<string, MetricsUser>) {
    forall k :: k in a ==> k in b && b[k] == a[k]
  }

  /** Every event files its user and keeps every existing record. */
  lemma ApplyKeepsUsers(m: Metrics, e: Event)
    ensures e.user in Apply(m, e).users
    ensures KeptIn(m.users, Apply(m, e).users)
  {
  }

  /** No user record is ever dropped or replaced by later events. */
  lemma {:induction false} UsersOnlyGrow(events: seq<Event>, k: nat)
    requires k <= |events|
    ensures KeptIn(Replay(events[..k]).users, Replay(events).users)
    decreases |events|
  {
    if k == |events| {
      assert events[..k] == events;
    } else {
      var prefix := events[..|events| - 1];
      UsersOnlyGrow(prefix, k);
      assert prefix[..k] == events[..k];
      ApplyKeepsUsers(Replay(prefix), events[|events| - 1]);
    }
  }

  /** Every user who caused an event has a record, the one filed at their first event. */
  lemma ReplayKnowsUsers(events: seq<Event>, i: nat)
    requires i < |events|
    ensures events[i].user in Replay(events).users
    ensures Replay(events).users[events[i].user] == Replay(events[..i + 1]).users[events[i].user]
  {
    assert events[..i + 1][..i] == events[..i];
    ApplyKeepsUsers(Replay(events[..i]), events[i]);
    UsersOnlyGrow(events, i + 1);
  }

  class UserUsageMetrics {
    var users: map<string, MetricsUser>
    var uniqueUserLoginCount: map<string, nat>
    var uniqueIpLoginCount: map<string, nat>
    var uniqueUserLogoutCount: map<string, nat>
    var uniqueIpLogoutCount: map<string, nat>
    var uniqueUserQueryCount: map<string, nat>
    var uniqueIpQueryCount: map<string, nat>

    /** The number of each kind of event recorded so far. */
    ghost var logins: nat
    ghost var logouts: nat
    ghost var queries: nat

    ghost function Snapshot(): Metrics
      reads this
    {
      Metrics(users, uniqueUserLoginCount, uniqueIpLoginCount, uniqueUserLogoutCount,
              uniqueIpLogoutCount, uniqueUserQueryCount, uniqueIpQueryCount,
              logins, logouts, queries)
    }

    ghost predicate Valid()
      reads this
    {
      Invariant(Snapshot())
    }

    constructor ()
      ensures Valid()
      ensures Snapshot() == Empty()
    {
      users := map[];
      uniqueUserLoginCount := map[];
      uniqueIpLoginCount := map[];
      uniqueUserLogoutCount := map[];
      uniqueIpLogoutCount := map[];
      uniqueUserQueryCount := map[];
      uniqueIpQueryCount := map[];
      logins, logouts, queries := 0, 0, 0;
      EmptyInvariant();
    }

    /** A login by userName from ipAddress. The address only reaches the per-user record. */
    method UserLoggedIn(userName: string, ipAddress: string)
      requires Valid()
      modifies this
      ensures Valid()
      ensures Snapshot() == LoggedIn(old(Snapshot()), userName)
    {
      ghost var next := LoggedIn(Snapshot(), userName);
      LoginPreserves(Snapshot(), userName);
      users := PutIfAbsent(users, userName, MetricsUser(userName));
      uniqueUserLoginCount := Increment(uniqueUserLoginCount, userName);
      uniqueIpLoginCount := Increment(uniqueIpLoginCount, userName);
      logins := logins + 1;
      assert Snapshot() == next;
    }

    /** A logout by userName from ipAddress. The address only reaches the per-user record. */
    method UserLoggedOut(userName: string, ipAddress: string)
      requires Valid()
      modifies this
      ensures Valid()
      ensures Snapshot() == LoggedOut(old(Snapshot()), userName)
    {
      ghost var next := LoggedOut(Snapshot(), userName);
      LogoutPreserves(Snapshot(), userName);
      users := PutIfAbsent(users, userName, MetricsUser(userName));
      uniqueUserLogoutCount := Increment(uniqueUserLogoutCount, userName);
      uniqueIpLogoutCount := Increment(uniqueIpLogoutCount, userName);
      logouts := logouts + 1;
      assert Snapshot() == next;
    }

    /** A query by userName from ipAddress: one counter per user and one per address. */
    method UserMadeQuery(userName: string, ipAddress: string)
      requires Valid()
      modifies this
      ensures Valid()
      ensures Snapshot() == MadeQuery(old(Snapshot()), userName, ipAddress)
    {
      ghost var next := MadeQuery(Snapshot(), userName, ipAddress);
      QueryPreserves(Snapshot(), userName, ipAddress);
      users := PutIfAbsent(users, userName, MetricsUser(userName));
      uniqueUserQueryCount := Increment(uniqueUserQueryCount, userName);
      uniqueIpQueryCount := Increment(uniqueIpQueryCount, ipAddress);
      queries := queries + 1;
      assert Snapshot() == next;
    }
  }
}
