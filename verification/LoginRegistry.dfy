/**
 The session registry of the login server: five maps and two 32-bit counters, changed by a login
 (LoginRequest.cpp), a logout (LogoutRequest.cpp) and the loss of a connection
 (ClientClosedConnection.cpp). Each handler runs under one mutex and is one atomic step here.
 */
module LoginRegistry {

  type Connection = nat // stands for the address of a connection object

  const UINT_RANGE := 0x1_0000_0000

  function Increment(n: nat): nat { (n + 1) % UINT_RANGE }

  function Decrement(n: nat): nat { (n + UINT_RANGE - 1) % UINT_RANGE }

  /** `std::map::insert`: a key that is present keeps its value. */
  function Insert<K, V>(m: map<K, V>, k: K, v: V): map<K, V> {
    if k in m then m else m[k := v]
  }

  lemma OneFurther(a: nat)
    ensures Increment(a % UINT_RANGE) == (a + 1) % UINT_RANGE
    ensures Decrement((a + 1) % UINT_RANGE) == a % UINT_RANGE
  {
  }

  // ---------- the tables as a value ----------

  datatype Tables = Tables(
    tokenOf: map<nat, nat>,        // userTokenMap
    connOf: map<nat, Connection>,  // idToConnectionMap
    idAt: map<Connection, nat>,    // connectionToIdMap
    idOf: map<string, nat>,        // userToIdMap
    nameOf: map<nat, string>,      // idToUserMap
    next: nat,                     // nextFreeToken
    connected: nat)                // usersConnected

  const Empty := Tables(map[], map[], map[], map[], map[], 0, 0)

  ghost predicate Inverse<K, V>(m: map<K, V>, n: map<V, K>) {
    && (forall k :: k in m ==> m[k] in n && n[m[k]] == k)
    && (forall v :: v in n ==> n[v] in m && m[n[v]] == v)
  }

  lemma InverseRemove<K, V>(m: map<K, V>, n: map<V, K>, k: K)
    requires Inverse(m, n) && k in m
    ensures Inverse(m - {k}, n - {m[k]})
  {
  }

  lemma InverseAdd<K, V>(m: map<K, V>, n: map<V, K>, k: K, v: V)
    requires Inverse(m, n) && k !in m && v !in n
    ensures Inverse(m[k := v], n[v := k])
  {
  }

  /** The tables agree: they are one set of sessions seen from five sides. */
  ghost predicate Consistent(t: Tables) {
    && t.next < UINT_RANGE
    && Counted(t)
    && t.tokenOf.Keys == t.connOf.Keys == t.nameOf.Keys
    && (forall id :: id in t.tokenOf ==> t.tokenOf[id] == id)
    && Inverse(t.connOf, t.idAt)
    && Inverse(t.nameOf, t.idOf)
  }

  ghost predicate Counted(t: Tables) {
    t.connected == |t.tokenOf| % UINT_RANGE
  }

  lemma RemovedOne<K, V>(m: map<K, V>, k: K)
    requires k in m
    ensures |m - {k}| == |m| - 1
  {
  }

  // ---------- the three handlers ----------
  // `Defined` says that no iterator past the end is dereferenced or erased.

  ghost predicate LoginDefined(t: Tables, user: string, valid: bool) {
    valid && user in t.idOf ==>
      var prior := t.idOf[user];
      && (prior in t.tokenOf || prior == t.next)
      && prior in t.nameOf && prior in t.connOf && t.connOf[prior] in t.idAt
  }

  /** The tables without the session that `id` names, seen from connection c and user u. */
  function Without(t: Tables, id: nat, c: Connection, u: string): Tables {
    Tables(t.tokenOf - {id}, t.connOf - {id}, t.idAt - {c}, t.idOf - {u}, t.nameOf - {id},
           t.next, Decrement(t.connected))
  }

  ghost function AfterLogin(t: Tables, user: string, c: Connection, valid: bool): Tables
    requires LoginDefined(t, user, valid)
  {
    if !valid then t else
      var id := t.next;
      var t1 := t.(tokenOf := Insert(t.tokenOf, id, id));
      var t2 := if user in t.idOf then Without(t1, t.idOf[user], t.connOf[t.idOf[user]], user) else t1;
      t2.(idAt := Insert(t2.idAt, c, id),
          connOf := Insert(t2.connOf, id, c),
          idOf := Insert(t2.idOf, user, id),
          nameOf := Insert(t2.nameOf, id, user),
          next := Increment(t2.next),
          connected := Increment(t2.connected))
  }

  function LogoutAnswer(t: Tables, id: nat, token: nat): nat {
    if id !in t.tokenOf then 1 else if t.tokenOf[id] != token then 2 else 0
  }

  ghost predicate LogoutDefined(t: Tables, c: Connection, id: nat, token: nat) {
    LogoutAnswer(t, id, token) == 0 ==>
      id in t.nameOf && t.nameOf[id] in t.idOf && id in t.connOf && c in t.idAt
  }

  ghost function AfterLogout(t: Tables, c: Connection, id: nat, token: nat): Tables
    requires LogoutDefined(t, c, id, token)
  {
    if LogoutAnswer(t, id, token) == 0 then Without(t, id, c, t.nameOf[id]) else t
  }

  ghost predicate CloseDefined(t: Tables, c: Connection) {
    c in t.idAt ==>
      var id := t.idAt[c];
      id in t.nameOf && t.nameOf[id] in t.idOf && id in t.tokenOf && id in t.connOf
  }

  ghost function AfterClose(t: Tables, c: Connection): Tables
    requires CloseDefined(t, c)
  {
    if c in t.idAt then Without(t, t.idAt[c], c, t.nameOf[t.idAt[c]]) else t
  }

  // ---------- when the handlers keep the tables consistent ----------

  /** The connection is free, or holds the very session that the login supersedes. */
  ghost predicate ConnectionAvailable(t: Tables, user: string, c: Connection) {
    c in t.idAt ==> user in t.idOf && t.idAt[c] == t.idOf[user]
  }

  lemma OneLess(t: Tables, id: nat, c: Connection, u: string)
    requires Counted(t) && id in t.tokenOf
    ensures Counted(Without(t, id, c, u))
  {
    RemovedOne(t.tokenOf, id);
    OneFurther(|t.tokenOf| - 1);
  }

  lemma RemoveSession(t: Tables, id: nat)
    requires Consistent(t) && id in t.tokenOf
    ensures Consistent(Without(t, id, t.connOf[id], t.nameOf[id]))
  {
    OneLess(t, id, t.connOf[id], t.nameOf[id]);
    InverseRemove(t.connOf, t.idAt, id);
    InverseRemove(t.nameOf, t.idOf, id);
  }

  /** The tables with one more session, whose id is the next free one. */
  ghost function WithSession(t: Tables, user: string, c: Connection): Tables {
    var id := t.next;
    t.(tokenOf := t.tokenOf[id := id], idAt := t.idAt[c := id], connOf := t.connOf[id := c],
       idOf := t.idOf[user := id], nameOf := t.nameOf[id := user],
       next := Increment(id), connected := Increment(t.connected))
  }

  lemma AddSession(t: Tables, user: string, c: Connection)
    requires Consistent(t)
    requires t.next !in t.tokenOf && c !in t.idAt && user !in t.idOf
    ensures Consistent(WithSession(t, user, c))
  {
    OneFurther(|t.tokenOf|);
    InverseAdd(t.connOf, t.idAt, t.next, c);
    InverseAdd(t.nameOf, t.idOf, t.next, user);
  }

  /** Without the session that a login of user supersedes. */
  ghost function Superseded(t: Tables, user: string): Tables {
    if user in t.idOf && t.idOf[user] in t.connOf
    then Without(t, t.idOf[user], t.connOf[t.idOf[user]], user)
    else t
  }

  lemma SupersededConsistent(t: Tables, user: string)
    requires Consistent(t)
    ensures Consistent(Superseded(t, user)) && user !in Superseded(t, user).idOf
    ensures Superseded(t, user).next == t.next
  {
    if user in t.idOf {
      RemoveSession(t, t.idOf[user]);
    }
  }

  lemma SupersedeThenAdd(t: Tables, user: string, c: Connection)
    requires LoginDefined(t, user, true)
    requires t.next !in t.tokenOf && t.next !in t.connOf && t.next !in t.nameOf
    requires c !in Superseded(t, user).idAt
    ensures AfterLogin(t, user, c, true) == WithSession(Superseded(t, user), user, c)
  {
    var id := t.next;
    if user in t.idOf {
      assert t.tokenOf[id := id] - {t.idOf[user]} == (t.tokenOf - {t.idOf[user]})[id := id];
    }
  }

  lemma LoginWithFreeIdAndConnection(t: Tables, user: string, c: Connection)
    requires Consistent(t) && LoginDefined(t, user, true)
    requires t.next !in t.tokenOf && ConnectionAvailable(t, user, c)
    ensures AfterLogin(t, user, c, true) == WithSession(Superseded(t, user), user, c)
    ensures Consistent(AfterLogin(t, user, c, true))
  {
    SupersededConsistent(t, user);
    SupersedeThenAdd(t, user, c);
    AddSession(Superseded(t, user), user, c);
  }

  /** The token of a wrapped-around id that is still live is not stored, yet the session is counted. */
  lemma LoginWithTakenId(t: Tables, user: string, c: Connection)
    requires Consistent(t) && LoginDefined(t, user, true)
    requires t.next in t.tokenOf
    ensures !Consistent(AfterLogin(t, user, c, true))
    ensures AfterLogin(t, user, c, true).tokenOf == Superseded(t, user).tokenOf
    ensures AfterLogin(t, user, c, true).connected == Increment(Superseded(t, user).connected)
  {
    var u := Superseded(t, user);
    SupersededConsistent(t, user);
    assert Counted(u);
    TakenIdMiscounts(u, AfterLogin(t, user, c, true));
  }

  lemma TakenIdMiscounts(u: Tables, t: Tables)
    requires Counted(u) && t.tokenOf == u.tokenOf && t.connected == Increment(u.connected)
    ensures !Counted(t)
  {
  }

  /** A connection bound to another user keeps pointing at the older session. */
  lemma LoginWithTakenConnection(t: Tables, user: string, c: Connection)
    requires Consistent(t) && LoginDefined(t, user, true)
    requires t.next !in t.tokenOf && !ConnectionAvailable(t, user, c)
    ensures !Consistent(AfterLogin(t, user, c, true))
    ensures c in t.idAt && c in AfterLogin(t, user, c, true).idAt && AfterLogin(t, user, c, true).idAt[c] == t.idAt[c]
    ensures AfterLogin(t, user, c, true).connOf[t.next] == c
  {
    var t', id := AfterLogin(t, user, c, true), t.next;
    assert id in t'.connOf && t'.connOf[id] == c && t'.idAt[c] == t.idAt[c] != id;
  }

  /** A successful login keeps the tables consistent exactly when its id and its connection are free. */
  lemma LoginKeepsConsistent(t: Tables, user: string, c: Connection)
    requires Consistent(t)
    ensures LoginDefined(t, user, true)
    ensures Consistent(AfterLogin(t, user, c, true)) <==> t.next !in t.tokenOf && ConnectionAvailable(t, user, c)
  {
    if t.next in t.tokenOf {
      LoginWithTakenId(t, user, c);
    } else if ConnectionAvailable(t, user, c) {
      LoginWithFreeIdAndConnection(t, user, c);
    } else {
      LoginWithTakenConnection(t, user, c);
    }
  }

  /** A logout that answers 0 keeps the tables consistent exactly when it comes from the session's own connection. */
  lemma LogoutKeepsConsistent(t: Tables, c: Connection, id: nat, token: nat)
    requires Consistent(t) && LogoutAnswer(t, id, token) == 0
    ensures LogoutDefined(t, c, id, token) && Consistent(AfterLogout(t, c, id, token)) <==> c == t.connOf[id]
  {
    if c == t.connOf[id] {
      RemoveSession(t, id);
    } else if c in t.idAt {
      var other, t' := t.idAt[c], AfterLogout(t, c, id, token);
      assert other in t'.connOf && t'.connOf[other] == c && c !in t'.idAt;
    }
  }

  lemma CloseKeepsConsistent(t: Tables, c: Connection)
    requires Consistent(t)
    ensures CloseDefined(t, c) && Consistent(AfterClose(t, c))
  {
    if c in t.idAt {
      RemoveSession(t, t.idAt[c]);
    }
  }

  // ---------- the tables as one map of sessions ----------

  datatype Session = Session(user: string, conn: Connection)

  ghost function Sessions(t: Tables): map<nat, Session> {
    map id | id in t.nameOf && id in t.connOf :: Session(t.nameOf[id], t.connOf[id])
  }

  datatype Event =
    | Login(user: string, c: Connection, valid: bool)
    | Logout(c: Connection, id: nat, token: nat)
    | Close(c: Connection)

  ghost predicate Defined(t: Tables, e: Event) {
    match e
    case Login(user, c, valid) => LoginDefined(t, user, valid)
    case Logout(c, id, token) => LogoutDefined(t, c, id, token)
    case Close(c) => CloseDefined(t, c)
  }

  ghost function After(t: Tables, e: Event): Tables
    requires Defined(t, e)
  {
    match e
    case Login(user, c, valid) => AfterLogin(t, user, c, valid)
    case Logout(c, id, token) => AfterLogout(t, c, id, token)
    case Close(c) => AfterClose(t, c)
  }

  /** What the handlers need of the connection that an event arrives on. */
  ghost predicate OwnConnection(t: Tables, e: Event) {
    match e
    case Login(user, c, valid) => valid ==> ConnectionAvailable(t, user, c)
    case Logout(c, id, token) => LogoutAnswer(t, id, token) == 0 ==> id in t.connOf && t.connOf[id] == c
    case Close(c) => true
  }

  /** What an event means: a user has one session, and a connection holds one session. */
  ghost function Meaning(s: map<nat, Session>, next: nat, e: Event): map<nat, Session> {
    match e
    case Login(user, c, valid) =>
      if valid then (map id | id in s && s[id].user != user :: s[id])[next := Session(user, c)] else s
    case Logout(c, id, token) => if token == id then s - {id} else s
    case Close(c) => map id | id in s && s[id].conn != c :: s[id]
  }

  lemma SessionsWithout(t: Tables, id: nat, c: Connection, u: string)
    ensures Sessions(Without(t, id, c, u)) == Sessions(t) - {id}
  {
  }

  lemma SessionsWith(t: Tables, user: string, c: Connection)
    ensures Sessions(WithSession(t, user, c)) == Sessions(t)[t.next := Session(user, c)]
  {
  }

  lemma SessionIds(t: Tables)
    requires Consistent(t)
    ensures Sessions(t).Keys == t.tokenOf.Keys
  {
  }

  /** Each user and each connection has at most one session, so filtering by either removes one id. */
  lemma OneSessionEach(t: Tables, user: string, c: Connection)
    requires Consistent(t)
    ensures var s := Sessions(t);
            && (map id | id in s && s[id].user != user :: s[id])
                 == (if user in t.idOf then s - {t.idOf[user]} else s)
            && (map id | id in s && s[id].conn != c :: s[id])
                 == (if c in t.idAt then s - {t.idAt[c]} else s)
  {
  }

  lemma LoginMeans(t: Tables, user: string, c: Connection)
    requires Consistent(t) && ConnectionAvailable(t, user, c) && t.next !in t.tokenOf
    ensures LoginDefined(t, user, true)
    ensures Sessions(AfterLogin(t, user, c, true)) == Meaning(Sessions(t), t.next, Login(user, c, true))
  {
    LoginKeepsConsistent(t, user, c);
    LoginWithFreeIdAndConnection(t, user, c);
    SessionsWith(Superseded(t, user), user, c);
    OneSessionEach(t, user, c);
    if user in t.idOf {
      SessionsWithout(t, t.idOf[user], t.connOf[t.idOf[user]], user);
    }
  }

  lemma CloseMeans(t: Tables, c: Connection)
    requires Consistent(t)
    ensures CloseDefined(t, c)
    ensures Sessions(AfterClose(t, c)) == Meaning(Sessions(t), t.next, Close(c))
  {
  }

  lemma LogoutMeans(t: Tables, c: Connection, id: nat, token: nat)
    requires Consistent(t) && OwnConnection(t, Logout(c, id, token))
    ensures LogoutDefined(t, c, id, token)
    ensures Sessions(AfterLogout(t, c, id, token)) == Meaning(Sessions(t), t.next, Logout(c, id, token))
  {
  }

  /** A login that succeeds finds its id unused. */
  ghost predicate FreshId(t: Tables, e: Event) {
    Admits(e) == 1 ==> t.next !in t.tokenOf
  }

  lemma StepConsistent(t: Tables, e: Event)
    requires Consistent(t) && OwnConnection(t, e) && FreshId(t, e)
    ensures Defined(t, e) && Consistent(After(t, e))
  {
    match e
    case Login(user, c, valid) =>
      LoginKeepsConsistent(t, user, c);
    case Logout(c, id, token) =>
      if LogoutAnswer(t, id, token) == 0 {
        LogoutKeepsConsistent(t, c, id, token);
      }
    case Close(c) =>
      CloseKeepsConsistent(t, c);
  }

  /** The five maps do together what the event means for the sessions. */
  lemma StepMeans(t: Tables, e: Event)
    requires Consistent(t) && OwnConnection(t, e) && FreshId(t, e)
    ensures Defined(t, e)
    ensures Sessions(After(t, e)) == Meaning(Sessions(t), t.next, e)
  {
    match e
    case Login(user, c, valid) =>
      if valid {
        LoginMeans(t, user, c);
      }
    case Logout(c, id, token) =>
      LogoutMeans(t, c, id, token);
    case Close(c) =>
      CloseMeans(t, c);
  }

  // ---------- whole runs ----------

  /** One handler call. */
  ghost predicate Step(t: Tables, e: Event, t': Tables) {
    Defined(t, e) && t' == After(t, e)
  }

  /** The tables before and after each event of a run. */
  ghost predicate IsRun(ts: seq<Tables>, es: seq<Event>) {
    && |ts| == |es| + 1
    && forall i {:trigger Step(ts[i], es[i], ts[i + 1])} :: 0 <= i < |es| ==> Step(ts[i], es[i], ts[i + 1])
  }

  /** The ids that an event uses up. */
  function Admits(e: Event): nat {
    if e.Login? && e.valid then 1 else 0
  }

  /** The ids that the first n events use up. */
  function Logins(es: seq<Event>, n: nat): nat
    requires n <= |es|
  {
    if n == 0 then 0 else Logins(es, n - 1) + Admits(es[n - 1])
  }

  function NextCounter(next: nat, e: Event): nat {
    if Admits(e) == 1 then Increment(next) else next
  }

  /** The id counter after the first n events. */
  function CounterAfter(next: nat, es: seq<Event>, n: nat): nat
    requires n <= |es|
  {
    if n == 0 then next else NextCounter(CounterAfter(next, es, n - 1), es[n - 1])
  }

  /** The counter comes round after as many logins as there are ids. */
  lemma {:induction false} CounterComesRound(next: nat, es: seq<Event>, n: nat)
    requires next < UINT_RANGE && n <= |es|
    ensures CounterAfter(next, es, n) == (next + Logins(es, n)) % UINT_RANGE
  {
    if n > 0 {
      CounterComesRound(next, es, n - 1);
      OneFurther(next + Logins(es, n - 1));
    }
  }

  /** What the first n events mean for the sessions s. */
  ghost function MeaningOf(s: map<nat, Session>, next: nat, es: seq<Event>, n: nat): map<nat, Session>
    requires n <= |es|
  {
    if n == 0 then s
    else Meaning(MeaningOf(s, next, es, n - 1), CounterAfter(next, es, n - 1), es[n - 1])
  }

  /** The event comes from its own connection, and a login that succeeds finds its id unused. */
  ghost predicate Orderly(t: Tables, e: Event) {
    OwnConnection(t, e) && FreshId(t, e)
  }

  lemma DisorderlyLogin(t: Tables, user: string, c: Connection)
    requires Consistent(t) && !Orderly(t, Login(user, c, true))
    ensures LoginDefined(t, user, true) && !Consistent(AfterLogin(t, user, c, true))
  {
    LoginKeepsConsistent(t, user, c);
  }

  lemma DisorderlyLogout(t: Tables, c: Connection, id: nat, token: nat)
    requires Consistent(t) && !Orderly(t, Logout(c, id, token)) && LogoutDefined(t, c, id, token)
    ensures !Consistent(AfterLogout(t, c, id, token))
  {
    LogoutKeepsConsistent(t, c, id, token);
  }

  lemma StepStaysConsistent(t: Tables, e: Event, t': Tables)
    requires Consistent(t) && Step(t, e, t')
    ensures Consistent(t') <==> Orderly(t, e)
  {
    if Orderly(t, e) {
      StepConsistent(t, e);
    } else if e.Login? {
      DisorderlyLogin(t, e.user, e.c);
    } else {
      DisorderlyLogout(t, e.c, e.id, e.token);
    }
  }

  /**
   In every run, also when the id counter wraps: the tables are consistent throughout exactly when each
   event comes from its own connection and each login finds its id unused.
   */
  lemma {:induction false} RunConsistentExactlyWhen(ts: seq<Tables>, es: seq<Event>, n: nat)
    requires IsRun(ts, es) && Consistent(ts[0]) && n <= |es|
    ensures (forall i :: 0 <= i <= n ==> Consistent(ts[i])) <==> forall i :: 0 <= i < n ==> Orderly(ts[i], es[i])
  {
    if n > 0 {
      var k := n - 1;
      RunConsistentExactlyWhen(ts, es, k);
      assert Step(ts[k], es[k], ts[k + 1]);
      if Consistent(ts[k]) {
        StepStaysConsistent(ts[k], es[k], ts[k + 1]);
      }
    }
  }

  /** An id that is over comes back only by a login for which the counter has come round to it. */
  lemma ComesBackExactlyWhen(t: Tables, e: Event, id: nat)
    requires Consistent(t) && Orderly(t, e) && id !in t.tokenOf
    ensures Defined(t, e)
    ensures id in After(t, e).tokenOf <==> Admits(e) == 1 && id == t.next
  {
    StepIds(t, e);
    assert id in After(t, e).tokenOf <==> id in After(t, e).tokenOf.Keys;
  }

  /** What one event does to the counter and the sessions. */
  ghost predicate Means(t: Tables, e: Event, t': Tables) {
    t'.next == NextCounter(t.next, e) && Sessions(t') == Meaning(Sessions(t), t.next, e)
  }

  ghost predicate MeaningfulRun(ts: seq<Tables>, es: seq<Event>) {
    && |ts| == |es| + 1
    && forall i {:trigger Means(ts[i], es[i], ts[i + 1])} :: 0 <= i < |es| ==> Means(ts[i], es[i], ts[i + 1])
  }

  lemma {:induction false} MeaningsAddUp(ts: seq<Tables>, es: seq<Event>, n: nat)
    requires MeaningfulRun(ts, es) && n <= |es|
    ensures ts[n].next == CounterAfter(ts[0].next, es, n)
    ensures Sessions(ts[n]) == MeaningOf(Sessions(ts[0]), ts[0].next, es, n)
  {
    if n > 0 {
      var k := n - 1;
      MeaningsAddUp(ts, es, k);
      assert Means(ts[k], es[k], ts[k + 1]);
    }
  }

  /** A run in which the tables stay consistent. */
  ghost predicate OrderlyRun(ts: seq<Tables>, es: seq<Event>) {
    IsRun(ts, es) && Consistent(ts[0]) && forall i :: 0 <= i < |es| ==> Orderly(ts[i], es[i])
  }

  lemma OrderlyStepMeans(ts: seq<Tables>, es: seq<Event>, i: nat)
    requires OrderlyRun(ts, es) && i < |es|
    ensures Means(ts[i], es[i], ts[i + 1])
  {
    RunConsistentExactlyWhen(ts, es, i);
    assert Step(ts[i], es[i], ts[i + 1]);
    StepIsMeant(ts[i], es[i], ts[i + 1]);
  }

  lemma StepIsMeant(t: Tables, e: Event, t': Tables)
    requires Consistent(t) && Orderly(t, e) && Step(t, e, t')
    ensures Means(t, e, t')
  {
    StepMeans(t, e);
  }

  /** In every state of such a run the five maps hold exactly the sessions that the events so far mean. */
  lemma RunMeans(ts: seq<Tables>, es: seq<Event>, n: nat)
    requires OrderlyRun(ts, es) && n <= |es|
    ensures Sessions(ts[n]) == MeaningOf(Sessions(ts[0]), ts[0].next, es, n)
  {
    forall i | 0 <= i < |es| ensures Means(ts[i], es[i], ts[i + 1]) {
      OrderlyStepMeans(ts, es, i);
    }
    MeaningsAddUp(ts, es, n);
  }

  /** No login among the events from m up to n is given the id. */
  ghost predicate NotReissued(ts: seq<Tables>, es: seq<Event>, m: nat, n: nat, id: nat)
    requires |ts| == |es| + 1 && n <= |es|
  {
    forall k :: m <= k < n ==> Admits(es[k]) == 0 || ts[k].next != id
  }

  /** Also when the counter wraps: a session that is over stays over until a login is given its id again. */
  lemma {:induction false} OverUntilReissued(ts: seq<Tables>, es: seq<Event>, m: nat, n: nat, id: nat)
    requires OrderlyRun(ts, es) && m <= n <= |es|
    requires id !in ts[m].tokenOf && NotReissued(ts, es, m, n, id)
    ensures id !in ts[n].tokenOf
  {
    if m < n {
      var k := n - 1;
      OverUntilReissued(ts, es, m, k, id);
      RunConsistentExactlyWhen(ts, es, k);
      assert Step(ts[k], es[k], ts[k + 1]);
      ComesBackExactlyWhen(ts[k], es[k], id);
    }
  }

  /** Until then, replaying its logout is answered 1 and changes nothing, whoever sends it. */
  lemma ReplayedUntilReissued(ts: seq<Tables>, es: seq<Event>, m: nat, n: nat, id: nat, c: Connection, token: nat)
    requires OrderlyRun(ts, es) && m <= n <= |es|
    requires id !in ts[m].tokenOf && NotReissued(ts, es, m, n, id)
    ensures LogoutDefined(ts[n], c, id, token) && LogoutAnswer(ts[n], id, token) == 1
    ensures AfterLogout(ts[n], c, id, token) == ts[n]
  {
    OverUntilReissued(ts, es, m, n, id);
  }

  /** Consistent, and the id counter is ahead of every live session. */
  ghost predicate Ahead(t: Tables) {
    Consistent(t) && forall id :: id in t.tokenOf ==> id < t.next
  }

  lemma StepIds(t: Tables, e: Event)
    requires Consistent(t) && OwnConnection(t, e) && FreshId(t, e)
    ensures Defined(t, e)
    ensures After(t, e).tokenOf.Keys == Meaning(Sessions(t), t.next, e).Keys
    ensures Meaning(Sessions(t), t.next, e).Keys
              <= t.tokenOf.Keys + (if e.Login? && e.valid then {t.next} else {})
  {
    StepConsistent(t, e);
    StepMeans(t, e);
    SessionIds(t);
    SessionIds(After(t, e));
  }

  lemma StepCounter(t: Tables, e: Event)
    requires Defined(t, e) && t.next + Admits(e) < UINT_RANGE && t.next < UINT_RANGE
    ensures After(t, e).next == t.next + Admits(e)
  {
  }

  lemma StepKeepsAhead(t: Tables, e: Event, t': Tables)
    requires Ahead(t) && OwnConnection(t, e) && Step(t, e, t') && t.next + Admits(e) < UINT_RANGE
    ensures Ahead(t') && t'.next == t.next + Admits(e)
  {
    StepConsistent(t, e);
    StepCounter(t, e);
    IdsBelow(t, e);
  }

  lemma IdsBelow(t: Tables, e: Event)
    requires Ahead(t) && OwnConnection(t, e)
    ensures Defined(t, e) && forall id :: id in After(t, e).tokenOf ==> id < t.next + Admits(e)
  {
    StepIds(t, e);
    forall id | id in After(t, e).tokenOf ensures id < t.next + Admits(e) {
      assert id in After(t, e).tokenOf.Keys;
    }
  }

  /** A run from consistent tables, each event from its own connection, in which the id counter does not wrap. */
  ghost predicate LiveRun(ts: seq<Tables>, es: seq<Event>) {
    && IsRun(ts, es) && Ahead(ts[0]) && ts[0].next + Logins(es, |es|) < UINT_RANGE
    && forall i :: 0 <= i < |es| ==> OwnConnection(ts[i], es[i])
  }

  lemma {:induction false} LoginsGrow(es: seq<Event>, m: nat, n: nat)
    requires m <= n <= |es|
    ensures Logins(es, m) <= Logins(es, n)
  {
    if m < n {
      LoginsGrow(es, m, n - 1);
    }
  }

  /** The tables are consistent in every state of a run, and ids are handed out in order. */
  lemma {:induction false} RunKeepsAhead(ts: seq<Tables>, es: seq<Event>, n: nat)
    requires LiveRun(ts, es) && n <= |es|
    ensures Ahead(ts[n]) && ts[n].next == ts[0].next + Logins(es, n)
  {
    if n > 0 {
      var k := n - 1;
      RunKeepsAhead(ts, es, k);
      LoginsGrow(es, n, |es|);
      StepKeepsAhead(ts[k], es[k], ts[k + 1]);
    }
  }

  /** While the counter does not wrap, every login finds its id unused. */
  lemma LiveRunIsOrderly(ts: seq<Tables>, es: seq<Event>)
    requires LiveRun(ts, es)
    ensures OrderlyRun(ts, es)
  {
    forall i | 0 <= i < |es| ensures Orderly(ts[i], es[i]) {
      RunKeepsAhead(ts, es, i);
    }
  }

  /** A session that is over at some point of a run never comes back. */
  lemma OverForever(ts: seq<Tables>, es: seq<Event>, m: nat, n: nat, id: nat)
    requires LiveRun(ts, es) && m <= n <= |es|
    requires id < ts[m].next && id !in ts[m].tokenOf
    ensures id !in ts[n].tokenOf
  {
    LiveRunIsOrderly(ts, es);
    forall k | m <= k < n ensures ts[k].next != id {
      RunKeepsAhead(ts, es, m);
      RunKeepsAhead(ts, es, k);
      LoginsGrow(es, m, k);
    }
    OverUntilReissued(ts, es, m, n, id);
  }

  /** Replaying the logout of a session that is over is answered 1 and changes nothing, whoever sends it. */
  lemma ReplayedLogout(ts: seq<Tables>, es: seq<Event>, m: nat, n: nat, id: nat, c: Connection, token: nat)
    requires LiveRun(ts, es) && m <= n <= |es|
    requires id < ts[m].next && id !in ts[m].tokenOf
    ensures LogoutDefined(ts[n], c, id, token) && LogoutAnswer(ts[n], id, token) == 1
    ensures AfterLogout(ts[n], c, id, token) == ts[n]
  {
    OverForever(ts, es, m, n, id);
  }

  /** The events that end a session: its own logout, the loss of its connection, and a new login of its user. */
  ghost predicate Ends(t: Tables, id: nat, e: Event)
    requires Consistent(t) && id in t.tokenOf
  {
    match e
    case Login(user, c, valid) => valid && user == t.nameOf[id]
    case Logout(c, id', token) => id' == id && token == id
    case Close(c) => c == t.connOf[id]
  }

  lemma EndsExactly(t: Tables, id: nat, e: Event)
    requires Ahead(t) && OwnConnection(t, e) && id in t.tokenOf
    ensures Defined(t, e)
    ensures id !in After(t, e).tokenOf <==> Ends(t, id, e)
  {
  }

  // ---------- the server object ----------

  datatype Notice = ClientDisconnect(id: nat, token: nat) | NewClient(id: nat, token: nat)

  class LoginServer {
    var userTokenMap: map<nat, nat>
    var idToConnectionMap: map<nat, Connection>
    var connectionToIdMap: map<Connection, nat>
    var userToIdMap: map<string, nat>
    var idToUserMap: map<nat, string>
    var nextFreeToken: nat
    var usersConnected: nat
    var controlConnected: bool

    ghost function State(): Tables
      reads this
    {
      Tables(userTokenMap, idToConnectionMap, connectionToIdMap, userToIdMap, idToUserMap,
             nextFreeToken, usersConnected)
    }

    constructor ()
      ensures State() == Empty && !controlConnected
    {
      userTokenMap, idToConnectionMap, connectionToIdMap := map[], map[], map[];
      userToIdMap, idToUserMap := map[], map[];
      nextFreeToken, usersConnected, controlConnected := 0, 0, false;
    }

    /** The part of a login that drops the user's older session. */
    method Supersede(user: string) returns (oldId: nat, oldToken: nat)
      requires user in userToIdMap
      requires var id := userToIdMap[user];
               id in userTokenMap && id in idToUserMap && id in idToConnectionMap
               && idToConnectionMap[id] in connectionToIdMap
      modifies this
      ensures oldId == old(userToIdMap)[user] && oldToken == old(userTokenMap)[oldId]
      ensures State() == Without(old(State()), oldId, old(idToConnectionMap)[oldId], user)
      ensures controlConnected == old(controlConnected)
    {
      oldId := userToIdMap[user];
      oldToken := userTokenMap[oldId];
      userToIdMap := userToIdMap - {user};
      idToUserMap := idToUserMap - {oldId};
      var oldConnection := idToConnectionMap[oldId];
      connectionToIdMap := connectionToIdMap - {oldConnection};
      idToConnectionMap := idToConnectionMap - {oldId};
      userTokenMap := userTokenMap - {oldId};
      usersConnected := Decrement(usersConnected);
    }

    /** The part of a login that enters the new session. */
    method Enter(user: string, c: Connection, id: nat)
      modifies this
      ensures var t := old(State());
              State() == t.(idAt := Insert(t.idAt, c, id), connOf := Insert(t.connOf, id, c),
                            idOf := Insert(t.idOf, user, id), nameOf := Insert(t.nameOf, id, user),
                            next := Increment(t.next), connected := Increment(t.connected))
      ensures controlConnected == old(controlConnected)
    {
      connectionToIdMap := Insert(connectionToIdMap, c, id);
      idToConnectionMap := Insert(idToConnectionMap, id, c);
      userToIdMap := Insert(userToIdMap, user, id);
      idToUserMap := Insert(idToUserMap, id, user);
      nextFreeToken := Increment(nextFreeToken);
      usersConnected := Increment(usersConnected);
    }

    /** `LoginRequestRcvd::exec`; `valid` is the verdict of the user database. */
    method LoginRequest(user: string, c: Connection, valid: bool)
      returns (answer: nat, id: nat, token: nat, toControl: seq<Notice>)
      requires LoginDefined(State(), user, valid)
      modifies this
      ensures State() == AfterLogin(old(State()), user, c, valid)
      ensures controlConnected == old(controlConnected)
      ensures answer == if valid then 0 else 1
      ensures valid ==> id == token == old(nextFreeToken)
      ensures valid && controlConnected ==>
                toControl == if user in old(userToIdMap)
                             then var oldId := old(userToIdMap)[user];
                                  [ClientDisconnect(oldId, Insert(old(userTokenMap), id, token)[oldId]),
                                   NewClient(id, token)]
                             else [NewClient(id, token)]
      ensures !controlConnected ==> toControl == []
    {
      id, token, toControl := 0, 0, [];
      if valid {
        answer := 0;
        id := nextFreeToken;
        token := nextFreeToken;
        userTokenMap := Insert(userTokenMap, id, token);
        if user in userToIdMap {
          var oldId, oldToken := Supersede(user);
          if controlConnected {
            toControl := [ClientDisconnect(oldId, oldToken)];
          }
        }
        Enter(user, c, id);
        if controlConnected {
          toControl := toControl + [NewClient(id, token)];
        }
      } else {
        answer := 1;
      }
    }

    /** `LogoutRequestRcvd::exec`. */
    method LogoutRequest(c: Connection, clientId: nat, token: nat) returns (answer: nat, toControl: seq<Notice>)
      requires LogoutDefined(State(), c, clientId, token)
      modifies this
      ensures State() == AfterLogout(old(State()), c, clientId, token)
      ensures controlConnected == old(controlConnected)
      ensures answer == LogoutAnswer(old(State()), clientId, token)
      ensures answer == 0 <==> clientId in old(userTokenMap) && old(userTokenMap)[clientId] == token
      ensures answer == 1 <==> clientId !in old(userTokenMap)
      ensures answer == 2 <==> clientId in old(userTokenMap) && old(userTokenMap)[clientId] != token
      ensures toControl == if answer == 0 && controlConnected then [ClientDisconnect(clientId, token)] else []
    {
      toControl := [];
      if clientId !in userTokenMap {
        answer := 1;
      } else if userTokenMap[clientId] != token {
        answer := 2;
      } else {
        var username := idToUserMap[clientId];
        userToIdMap := userToIdMap - {username};
        idToUserMap := idToUserMap - {clientId};
        idToConnectionMap := idToConnectionMap - {clientId};
        connectionToIdMap := connectionToIdMap - {c};
        userTokenMap := userTokenMap - {clientId};
        answer := 0;
        usersConnected := Decrement(usersConnected);
        if controlConnected {
          toControl := [ClientDisconnect(clientId, token)];
        }
      }
    }

    /** `ClientClosedConnection::callOnClose`. */
    method CallOnClose(c: Connection)
      requires CloseDefined(State(), c)
      modifies this
      ensures State() == AfterClose(old(State()), c)
      ensures controlConnected == old(controlConnected)
    {
      if c in connectionToIdMap {
        var clientId := connectionToIdMap[c];
        var username := idToUserMap[clientId];
        userTokenMap := userTokenMap - {clientId};
        connectionToIdMap := connectionToIdMap - {c};
        idToConnectionMap := idToConnectionMap - {clientId};
        userToIdMap := userToIdMap - {username};
        idToUserMap := idToUserMap - {clientId};
        usersConnected := Decrement(usersConnected);
      }
    }
  }
}
