/**
 What the router knows, as a value: which zones each server lists, the transfer state and the user
 table of each zone, and the zone and connection of each user. The functions below say what each
 router operation does to it; module RouterObjects proves that the objects do exactly that.
 */
module RouterNet {
  import opened Options

  type Connection = nat // stands for the address of a connection object

  const NOWHERE: int := -1 // the server of a new zone and the zone of a new user

  datatype ZoneInfo = ZoneInfo(server: int, newServer: int, inTransfer: bool, users: set<int>)

  datatype UserInfo = UserInfo(token: int, zone: int, connection: Option<Connection>, freed: bool)

  datatype Net = Net(servers: map<int, set<int>>, zones: map<int, ZoneInfo>, users: map<int, UserInfo>)

  const EmptyNet := Net(map[], map[], map[])

  // ---------- the operations ----------

  datatype Op =
    | AddServer(s: int)
    | DelServer(s: int)
    | AddZone(z: int)
    | DelZone(z: int)
    | StartTransfer(z: int, s: int)
    | EndTransfer(z: int)
    | AddUser(u: int, token: int)
    | SetUserToZone(u: int, z: int)
    | DelUser(u: int)
    | ValidateUser(u: int, token: int)
    | ConnectUser(u: int, token: int, c: Connection)
    | SendToUser(u: int)

  /** The operation uses the object of the user, if there is one. */
  predicate UsesUser(op: Op, u: int) {
    match op
    case AddUser(u', _) => u' == u
    case DelUser(u') => u' == u
    case ValidateUser(u', _) => u' == u
    case ConnectUser(u', _, _) => u' == u
    case SendToUser(u') => u' == u
    case _ => false
  }

  function Unlist(servers: map<int, set<int>>, s: int, z: int): map<int, set<int>> {
    if s in servers then servers[s := servers[s] - {z}] else servers
  }

  function Dismiss(zones: map<int, ZoneInfo>, z: int, u: int): map<int, ZoneInfo> {
    if z in zones then zones[z := zones[z].(users := zones[z].users - {u})] else zones
  }

  /** An end of transfer acts only when the old and the new server are both known. */
  predicate Movable(n: Net, z: int) {
    && z in n.zones && n.zones[z].inTransfer
    && n.zones[z].server in n.servers && n.zones[z].newServer in n.servers
  }

  /** The user object is still there, and a user that changes zone comes from a known zone. */
  predicate Defined(n: Net, op: Op) {
    match op
    case SetUserToZone(u, z) =>
      u in n.users && z in n.zones ==> !n.users[u].freed && n.users[u].zone in n.zones
    case AddUser(u, _) => u in n.users ==> !n.users[u].freed
    case DelUser(u) => u in n.users ==> !n.users[u].freed
    case ValidateUser(u, _) => u in n.users ==> !n.users[u].freed
    case ConnectUser(u, _, _) => u in n.users ==> !n.users[u].freed
    case SendToUser(u) => u in n.users ==> !n.users[u].freed
    case _ => true
  }

  function After(n: Net, op: Op): Net
    requires Defined(n, op)
  {
    match op
    case AddServer(s) => if s in n.servers then n else n.(servers := n.servers[s := {}])
    case DelServer(s) => n.(servers := n.servers - {s})
    case AddZone(z) => if z in n.zones then n else n.(zones := n.zones[z := ZoneInfo(NOWHERE, NOWHERE, false, {})])
    case DelZone(z) =>
      if z !in n.zones then n
      else n.(servers := Unlist(n.servers, n.zones[z].server, z), zones := n.zones - {z})
    case StartTransfer(z, s) =>
      if z in n.zones && s in n.servers
      then n.(zones := n.zones[z := n.zones[z].(newServer := s, inTransfer := true)])
      else n
    case EndTransfer(z) =>
      if !Movable(n, z) then n
      else
        var info := n.zones[z];
        var unlisted := Unlist(n.servers, info.server, z);
        n.(servers := unlisted[info.newServer := unlisted[info.newServer] + {z}],
           zones := n.zones[z := info.(server := info.newServer, newServer := NOWHERE, inTransfer := false)])
    case AddUser(u, token) =>
      n.(users := n.users[u := if u in n.users then n.users[u].(token := token)
                               else UserInfo(token, NOWHERE, None, false)])
    case SetUserToZone(u, z) =>
      if u !in n.users || z !in n.zones then n
      else
        var joined := n.zones[z := n.zones[z].(users := n.zones[z].users + {u})];
        n.(zones := Dismiss(joined, n.users[u].zone, u), users := n.users[u := n.users[u].(zone := z)])
    case DelUser(u) =>
      if u !in n.users then n
      else n.(zones := Dismiss(n.zones, n.users[u].zone, u), users := n.users[u := n.users[u].(freed := true)])
    case ValidateUser(u, token) =>
      if u in n.users then n.(users := n.users[u := n.users[u].(token := token)]) else n
    case ConnectUser(u, token, c) =>
      if u !in n.users then n
      else if token == 0 then n.(users := n.users[u := n.users[u].(token := token)])
      else n.(users := n.users[u := n.users[u].(token := token, connection := Some(c))])
    case SendToUser(u) => n
  }

  // ---------- agreement ----------

  /** What a server lists is a known zone whose server it is. */
  ghost predicate ListingsTrue(n: Net) {
    forall s, z :: s in n.servers && z in n.servers[s] ==> z in n.zones && n.zones[z].server == s
  }

  /** A server lists exactly the known zones whose server it is. */
  ghost predicate ServersAgree(n: Net) {
    forall s, z :: s in n.servers ==> (z in n.servers[s] <==> z in n.zones && n.zones[z].server == s)
  }

  /** A zone holds exactly the users that are there and whose zone it is. */
  ghost predicate UsersAgree(n: Net) {
    forall z, u :: z in n.zones ==> (u in n.zones[z].users <==> LivesIn(n, u, z))
  }

  /** What a zone holds is a user that is there and whose zone it is. */
  ghost predicate HoldingsTrue(n: Net) {
    forall z, u :: z in n.zones && u in n.zones[z].users ==> LivesIn(n, u, z)
  }

  predicate LivesIn(n: Net, u: int, z: int) {
    u in n.users && !n.users[u].freed && n.users[u].zone == z
  }

  ghost predicate Agree(n: Net) {
    ServersAgree(n) && UsersAgree(n)
  }

  lemma OnOneServer(n: Net, z: int, s: int, s': int)
    requires ListingsTrue(n) && s in n.servers && s' in n.servers
    requires z in n.servers[s] && z in n.servers[s']
    ensures s == s'
  {
    assert n.zones[z].server == s;
  }

  /** No operation makes a server list a zone that is elsewhere. */
  lemma ListingsStayTrue(n: Net, op: Op)
    requires ListingsTrue(n) && Defined(n, op)
    ensures ListingsTrue(After(n, op))
  {
  }

  /** No operation makes a zone hold a user that is elsewhere or gone. */
  lemma HoldingsStayTrue(n: Net, op: Op)
    requires HoldingsTrue(n) && Defined(n, op)
    ensures HoldingsTrue(After(n, op))
  {
  }

  /** What the server index needs: a fresh server must not be named by a zone, nor a fresh zone's -1 be a server. */
  ghost predicate SafeForServers(n: Net, op: Op) {
    match op
    case AddServer(s) => s in n.servers || forall z :: z in n.zones ==> n.zones[z].server != s
    case AddZone(z) => z in n.zones || NOWHERE !in n.servers
    case _ => true
  }

  /** What the user index needs: no user may live in a fresh zone, nor a fresh user's -1 be a zone; a move must move. */
  ghost predicate SafeForUsers(n: Net, op: Op) {
    match op
    case AddZone(z) => z in n.zones || forall u :: !LivesIn(n, u, z)
    case AddUser(u, _) => u in n.users || NOWHERE !in n.zones
    case SetUserToZone(u, z) => u in n.users && z in n.zones ==> n.users[u].zone != z
    case _ => true
  }

  ghost predicate Safe(n: Net, op: Op) {
    SafeForServers(n, op) && SafeForUsers(n, op)
  }

  /** An operation keeps the server index in agreement exactly when it is safe for that index. */
  lemma ServersAgreeExactlyWhenSafe(n: Net, op: Op)
    requires ServersAgree(n) && Defined(n, op)
    ensures ServersAgree(After(n, op)) <==> SafeForServers(n, op)
  {
    var n' := After(n, op);
    if op.AddServer? && !SafeForServers(n, op) {
      var z :| z in n.zones && n.zones[z].server == op.s;
      assert op.s in n'.servers && z !in n'.servers[op.s];
    } else if op.AddZone? && !SafeForServers(n, op) {
      assert op.z !in n'.servers[NOWHERE] && n'.zones[op.z].server == NOWHERE;
    }
  }

  lemma AddZoneUsersAgree(n: Net, z: int)
    requires UsersAgree(n)
    ensures UsersAgree(After(n, AddZone(z))) <==> SafeForUsers(n, AddZone(z))
  {
    var n' := After(n, AddZone(z));
    assert forall u, y :: LivesIn(n', u, y) <==> LivesIn(n, u, y);
    if u :| z !in n.zones && LivesIn(n, u, z) {
      assert LivesIn(n', u, z) && u !in n'.zones[z].users;
    }
  }

  lemma AddUserUsersAgree(n: Net, u: int, token: int)
    requires UsersAgree(n) && Defined(n, AddUser(u, token))
    ensures UsersAgree(After(n, AddUser(u, token))) <==> SafeForUsers(n, AddUser(u, token))
  {
    var n' := After(n, AddUser(u, token));
    if u !in n.users && NOWHERE in n.zones {
      assert LivesIn(n', u, NOWHERE) && u !in n'.zones[NOWHERE].users;
    }
    assert forall v, z :: v != u ==> (LivesIn(n', v, z) <==> LivesIn(n, v, z));
  }

  lemma SetUserUsersAgree(n: Net, u: int, z: int)
    requires UsersAgree(n) && Defined(n, SetUserToZone(u, z))
    ensures UsersAgree(After(n, SetUserToZone(u, z))) <==> SafeForUsers(n, SetUserToZone(u, z))
  {
    var n' := After(n, SetUserToZone(u, z));
    if u in n.users && z in n.zones {
      if n.users[u].zone == z {
        assert LivesIn(n', u, z) && u !in n'.zones[z].users;
      }
      assert forall v, y :: v != u ==> (LivesIn(n', v, y) <==> LivesIn(n, v, y));
      assert forall y :: LivesIn(n', u, y) <==> y == z;
    }
  }

  lemma DelUserUsersAgree(n: Net, u: int)
    requires UsersAgree(n) && Defined(n, DelUser(u))
    ensures UsersAgree(After(n, DelUser(u)))
  {
    var n' := After(n, DelUser(u));
    assert forall v, y :: LivesIn(n', v, y) <==> v != u && LivesIn(n, v, y);
  }

  /** An operation keeps the user index in agreement exactly when it is safe for that index. */
  lemma UsersAgreeExactlyWhenSafe(n: Net, op: Op)
    requires UsersAgree(n) && Defined(n, op)
    ensures UsersAgree(After(n, op)) <==> SafeForUsers(n, op)
  {
    match op
    case AddZone(z) => AddZoneUsersAgree(n, z);
    case AddUser(u, token) => AddUserUsersAgree(n, u, token);
    case SetUserToZone(u, z) => SetUserUsersAgree(n, u, z);
    case DelUser(u) => DelUserUsersAgree(n, u);
    case _ => assert forall v, y :: LivesIn(After(n, op), v, y) <==> LivesIn(n, v, y);
  }

  /** An operation keeps both indexes in agreement exactly when it is safe. */
  lemma KeepsAgreementExactlyWhenSafe(n: Net, op: Op)
    requires Agree(n) && Defined(n, op)
    ensures Agree(After(n, op)) <==> Safe(n, op)
  {
    ServersAgreeExactlyWhenSafe(n, op);
    UsersAgreeExactlyWhenSafe(n, op);
  }

  // ---------- whole runs ----------

  ghost predicate Step(n: Net, op: Op, n': Net) {
    Defined(n, op) && n' == After(n, op)
  }

  ghost predicate IsRun(ns: seq<Net>, ops: seq<Op>) {
    && |ns| == |ops| + 1
    && forall i {:trigger Step(ns[i], ops[i], ns[i + 1])} :: 0 <= i < |ops| ==> Step(ns[i], ops[i], ns[i + 1])
  }

  /** In every run a server lists only zones that are on it, whatever the operations. */
  lemma {:induction false} RunListingsTrue(ns: seq<Net>, ops: seq<Op>, k: nat)
    requires IsRun(ns, ops) && ListingsTrue(ns[0]) && k <= |ops|
    ensures ListingsTrue(ns[k])
  {
    if k > 0 {
      var i := k - 1;
      RunListingsTrue(ns, ops, i);
      assert Step(ns[i], ops[i], ns[i + 1]);
      ListingsStayTrue(ns[i], ops[i]);
    }
  }

  /** In every run a zone holds only users that are there and live in it, whatever the operations. */
  lemma {:induction false} RunHoldingsTrue(ns: seq<Net>, ops: seq<Op>, k: nat)
    requires IsRun(ns, ops) && HoldingsTrue(ns[0]) && k <= |ops|
    ensures HoldingsTrue(ns[k])
  {
    if k > 0 {
      var i := k - 1;
      RunHoldingsTrue(ns, ops, i);
      assert Step(ns[i], ops[i], ns[i + 1]);
      HoldingsStayTrue(ns[i], ops[i]);
    }
  }

  /** In every run a zone is on at most one server, its own, even in the middle of a transfer. */
  lemma RunOnOneServer(ns: seq<Net>, ops: seq<Op>, k: nat, z: int, s: int, s': int)
    requires IsRun(ns, ops) && ListingsTrue(ns[0]) && k <= |ops|
    requires s in ns[k].servers && s' in ns[k].servers && z in ns[k].servers[s] && z in ns[k].servers[s']
    ensures z in ns[k].zones && s == s' == ns[k].zones[z].server
  {
    RunListingsTrue(ns, ops, k);
    OnOneServer(ns[k], z, s, s');
  }

  /** The server index agrees all through a run exactly when each operation is safe for it. */
  lemma {:induction false} ServersAgreeThroughout(ns: seq<Net>, ops: seq<Op>, k: nat)
    requires IsRun(ns, ops) && ServersAgree(ns[0]) && k <= |ops|
    ensures (forall i :: 0 <= i <= k ==> ServersAgree(ns[i]))
       <==> forall i :: 0 <= i < k ==> SafeForServers(ns[i], ops[i])
  {
    if k > 0 {
      var i := k - 1;
      ServersAgreeThroughout(ns, ops, i);
      assert Step(ns[i], ops[i], ns[i + 1]);
      if ServersAgree(ns[i]) {
        ServersAgreeExactlyWhenSafe(ns[i], ops[i]);
      }
    }
  }

  /** The user index agrees all through a run exactly when each operation is safe for it. */
  lemma {:induction false} UsersAgreeThroughout(ns: seq<Net>, ops: seq<Op>, k: nat)
    requires IsRun(ns, ops) && UsersAgree(ns[0]) && k <= |ops|
    ensures (forall i :: 0 <= i <= k ==> UsersAgree(ns[i])) <==> forall i :: 0 <= i < k ==> SafeForUsers(ns[i], ops[i])
  {
    if k > 0 {
      var i := k - 1;
      UsersAgreeThroughout(ns, ops, i);
      assert Step(ns[i], ops[i], ns[i + 1]);
      if UsersAgree(ns[i]) {
        UsersAgreeExactlyWhenSafe(ns[i], ops[i]);
      }
    }
  }

  // ---------- deleted users ----------

  /** The user was found by a deletion among the first k operations. */
  ghost predicate DeletedBy(ns: seq<Net>, ops: seq<Op>, k: nat, u: int)
    requires |ns| == |ops| + 1 && k <= |ops|
  {
    exists i :: 0 <= i < k && ops[i] == DelUser(u) && u in ns[i].users
  }

  /** The entry of a user is that of a freed object exactly when a deletion found the user. */
  lemma {:induction false} FreedExactlyWhenDeleted(ns: seq<Net>, ops: seq<Op>, k: nat, u: int)
    requires IsRun(ns, ops) && ns[0] == EmptyNet && k <= |ops|
    ensures u in ns[k].users && ns[k].users[u].freed <==> DeletedBy(ns, ops, k, u)
  {
    if k > 0 {
      var j := k - 1;
      FreedExactlyWhenDeleted(ns, ops, j, u);
      assert Step(ns[j], ops[j], ns[j + 1]);
      if DeletedBy(ns, ops, j, u) {
        var i :| 0 <= i < j && ops[i] == DelUser(u) && u in ns[i].users;
        assert DeletedBy(ns, ops, k, u);
      }
    }
  }

  /**
   In every run of a fresh router, an operation on a user (registering, deleting, validating or
   connecting it, or sending to it) uses a freed object exactly when an earlier deletion found the user.
   Moving the user between known zones needs its old zone known as well.
   */
  lemma UserIsSoundExactlyWhenNotDeleted(ns: seq<Net>, ops: seq<Op>, k: nat, u: int, op: Op, z: int)
    requires IsRun(ns, ops) && ns[0] == EmptyNet && k <= |ops|
    ensures UsesUser(op, u) ==> (Defined(ns[k], op) <==> !DeletedBy(ns, ops, k, u))
    ensures u in ns[k].users && z in ns[k].zones ==>
              (Defined(ns[k], SetUserToZone(u, z)) <==>
               !DeletedBy(ns, ops, k, u) && ns[k].users[u].zone in ns[k].zones)
  {
    FreedExactlyWhenDeleted(ns, ops, k, u);
  }

  /** Three messages are enough: add user 1, delete it, and add it or delete it again. */
  lemma DeletedUserIsUsedAgain(token: int)
    ensures var added := After(EmptyNet, AddUser(1, token));
            && Defined(added, DelUser(1))
            && !Defined(After(added, DelUser(1)), AddUser(1, token))
            && !Defined(After(added, DelUser(1)), DelUser(1))
  {
  }

  // ---------- transfers ----------

  /** The target of the latest start of transfer, among the first k operations, that found the zone and the server. */
  ghost function LatestTarget(ns: seq<Net>, ops: seq<Op>, k: nat, z: int): Option<int>
    requires |ns| == |ops| + 1 && k <= |ops|
  {
    if k == 0 then None
    else
      var n, op := ns[k - 1], ops[k - 1];
      if op.StartTransfer? && op.z == z && z in n.zones && op.s in n.servers then Some(op.s)
      else if op == DelZone(z) then None
      else LatestTarget(ns, ops, k - 1, z)
  }

  lemma {:induction false} TransferHeadsForTarget(ns: seq<Net>, ops: seq<Op>, k: nat, z: int)
    requires IsRun(ns, ops) && k <= |ops|
    requires z in ns[0].zones ==> !ns[0].zones[z].inTransfer
    ensures z in ns[k].zones && ns[k].zones[z].inTransfer ==>
              LatestTarget(ns, ops, k, z) == Some(ns[k].zones[z].newServer)
  {
    if k > 0 {
      var i := k - 1;
      TransferHeadsForTarget(ns, ops, i, z);
      assert Step(ns[i], ops[i], ns[i + 1]);
    }
  }

  /** A zone changes server only at an end of its transfer, and then to the target of the latest start. */
  lemma MovesOnlyToLatestTarget(ns: seq<Net>, ops: seq<Op>, k: nat, z: int)
    requires IsRun(ns, ops) && k < |ops|
    requires z in ns[0].zones ==> !ns[0].zones[z].inTransfer
    requires z in ns[k].zones && z in ns[k + 1].zones && ns[k].zones[z].server != ns[k + 1].zones[z].server
    ensures ops[k] == EndTransfer(z)
    ensures LatestTarget(ns, ops, k, z) == Some(ns[k + 1].zones[z].server)
  {
    assert Step(ns[k], ops[k], ns[k + 1]);
    TransferHeadsForTarget(ns, ops, k, z);
  }

  /** Moving a zone to the server it is on only ends the transfer. */
  lemma MoveToSameServer(n: Net, z: int)
    requires ServersAgree(n) && Movable(n, z) && n.zones[z].newServer == n.zones[z].server
    ensures After(n, EndTransfer(z))
         == n.(zones := n.zones[z := n.zones[z].(newServer := NOWHERE, inTransfer := false)])
  {
    var s := n.zones[z].server;
    assert n.servers[s] - {z} + {z} == n.servers[s];
  }

  // ---------- what a fresh router can and cannot do ----------

  /** No zone has found a server, and no user a zone. */
  ghost predicate Unplaced(n: Net) {
    && NOWHERE !in n.servers && NOWHERE !in n.zones
    && (forall z :: z in n.zones ==> n.zones[z].server == NOWHERE && n.zones[z].users == {})
    && (forall s :: s in n.servers ==> n.servers[s] == {})
    && (forall u :: u in n.users ==> n.users[u].zone == NOWHERE)
  }

  /**
   Unless a server and a zone are registered under the number -1, no run of a fresh router ever
   lists a zone on a server or a user in a zone: a new zone has no known server to move from.
   */
  lemma {:induction false} FreshRouterPlacesNothing(ns: seq<Net>, ops: seq<Op>, k: nat)
    requires IsRun(ns, ops) && ns[0] == EmptyNet && k <= |ops|
    requires forall i :: 0 <= i < |ops| ==> ops[i] != AddServer(NOWHERE) && ops[i] != AddZone(NOWHERE)
    ensures Unplaced(ns[k])
  {
    if k > 0 {
      var i := k - 1;
      FreshRouterPlacesNothing(ns, ops, i);
      assert Step(ns[i], ops[i], ns[i + 1]);
    }
  }

  /** The instruction that gives a zone its first server: register both, start a transfer and end it. */
  function Initialize(n: Net, z: int, s: int): Net {
    var n1 := if s != NOWHERE then After(n, AddServer(s)) else n;
    var n2 := if z != NOWHERE then After(n1, AddZone(z)) else n1;
    After(After(n2, StartTransfer(z, s)), EndTransfer(z))
  }

  /** It puts the zone on the server exactly when the server the zone had before is known, or is that server. */
  lemma InitializePlacesExactlyWhen(n: Net, z: int, s: int)
    requires s != NOWHERE && z != NOWHERE
    ensures var before := if z in n.zones then n.zones[z].server else NOWHERE;
            Initialize(n, z, s).zones[z].server == s <==> before in n.servers || before == s
  {
  }

  /**
   The instruction that adds a user and puts it into a zone (`AddUserRcvd::exec`): for a new user its
   second half dereferences an unknown old zone, unless a zone is registered under the number -1.
   */
  lemma NewUserPlacedExactlyWhen(n: Net, u: int, token: int, z: int)
    requires u !in n.users && z in n.zones
    ensures Defined(After(n, AddUser(u, token)), SetUserToZone(u, z)) <==> NOWHERE in n.zones
  {
  }

  // ---------- what a run has to remember ----------
  // The functions below read the operations alone, the latest first.

  function ServerKnown(ops: seq<Op>, k: nat, s: int): bool
    requires k <= |ops|
  {
    k > 0 &&
    match ops[k - 1]
    case AddServer(s') => s' == s || ServerKnown(ops, k - 1, s)
    case DelServer(s') => s' != s && ServerKnown(ops, k - 1, s)
    case _ => ServerKnown(ops, k - 1, s)
  }

  function ZoneKnown(ops: seq<Op>, k: nat, z: int): bool
    requires k <= |ops|
  {
    k > 0 &&
    match ops[k - 1]
    case AddZone(z') => z' == z || ZoneKnown(ops, k - 1, z)
    case DelZone(z') => z' != z && ZoneKnown(ops, k - 1, z)
    case _ => ZoneKnown(ops, k - 1, z)
  }

  function UserKnown(ops: seq<Op>, k: nat, u: int): bool
    requires k <= |ops|
  {
    k > 0 && ((ops[k - 1].AddUser? && ops[k - 1].u == u) || UserKnown(ops, k - 1, u))
  }

  /** The token that came with the latest operation on the user that carries one. */
  function TokenOf(ops: seq<Op>, k: nat, u: int): int
    requires k <= |ops| && UserKnown(ops, k, u)
  {
    match ops[k - 1]
    case AddUser(u', token) => if u' == u then token else TokenOf(ops, k - 1, u)
    case ValidateUser(u', token) => if u' == u then token else TokenOf(ops, k - 1, u)
    case ConnectUser(u', token, _) => if u' == u then token else TokenOf(ops, k - 1, u)
    case _ => TokenOf(ops, k - 1, u)
  }

  /** The connection that came with the latest ConnectUser that found the user and had a token other than 0. */
  function ConnectionOf(ops: seq<Op>, k: nat, u: int): Option<Connection>
    requires k <= |ops|
  {
    if k == 0 then None
    else
      var op := ops[k - 1];
      if op.ConnectUser? && op.u == u && op.token != 0 && UserKnown(ops, k - 1, u) then Some(op.c)
      else ConnectionOf(ops, k - 1, u)
  }

  /** The target of the latest SetUserToZone that found the user and the zone. */
  function ZoneOf(ops: seq<Op>, k: nat, u: int): int
    requires k <= |ops|
  {
    if k == 0 then NOWHERE
    else
      var op := ops[k - 1];
      if op.SetUserToZone? && op.u == u && UserKnown(ops, k - 1, u) && ZoneKnown(ops, k - 1, op.z) then op.z
      else ZoneOf(ops, k - 1, u)
  }

  /** Where a zone is, and where it is going. */
  datatype Place = Place(server: int, target: Option<int>)

  function PlaceOf(ops: seq<Op>, k: nat, z: int): Place
    requires k <= |ops| && ZoneKnown(ops, k, z)
  {
    var op := ops[k - 1];
    if !ZoneKnown(ops, k - 1, z) then Place(NOWHERE, None)
    else
      var place := PlaceOf(ops, k - 1, z);
      if op.StartTransfer? && op.z == z && ServerKnown(ops, k - 1, op.s) then place.(target := Some(op.s))
      else if op == EndTransfer(z) && place.target.Some? && ServerKnown(ops, k - 1, place.server)
              && ServerKnown(ops, k - 1, place.target.value) then Place(place.target.value, None)
      else place
  }

  lemma {:induction false} KnownInRun(ns: seq<Net>, ops: seq<Op>, k: nat, s: int, z: int, u: int)
    requires IsRun(ns, ops) && ns[0] == EmptyNet && k <= |ops|
    ensures s in ns[k].servers <==> ServerKnown(ops, k, s)
    ensures z in ns[k].zones <==> ZoneKnown(ops, k, z)
    ensures u in ns[k].users <==> UserKnown(ops, k, u)
  {
    if k > 0 {
      var i := k - 1;
      KnownInRun(ns, ops, i, s, z, u);
      assert Step(ns[i], ops[i], ns[i + 1]);
    }
  }

  /** In every run of a fresh router a user's token, zone and connection are those it was last given. */
  lemma {:induction false} UserInRun(ns: seq<Net>, ops: seq<Op>, k: nat, u: int)
    requires IsRun(ns, ops) && ns[0] == EmptyNet && k <= |ops|
    ensures u in ns[k].users <==> UserKnown(ops, k, u)
    ensures u in ns[k].users ==>
              && ns[k].users[u].token == TokenOf(ops, k, u)
              && ns[k].users[u].zone == ZoneOf(ops, k, u)
              && ns[k].users[u].connection == ConnectionOf(ops, k, u)
    ensures u !in ns[k].users ==> ZoneOf(ops, k, u) == NOWHERE && ConnectionOf(ops, k, u) == None
  {
    if k > 0 {
      var i := k - 1;
      UserInRun(ns, ops, i, u);
      KnownInRun(ns, ops, i, 0, if ops[i].SetUserToZone? then ops[i].z else 0, u);
      assert Step(ns[i], ops[i], ns[i + 1]);
    }
  }

  /** In every run of a fresh router a zone is where its transfers have brought it. */
  lemma {:induction false} ZoneInRun(ns: seq<Net>, ops: seq<Op>, k: nat, z: int)
    requires IsRun(ns, ops) && ns[0] == EmptyNet && k <= |ops|
    ensures z in ns[k].zones <==> ZoneKnown(ops, k, z)
    ensures z in ns[k].zones ==>
              var (info, place) := (ns[k].zones[z], PlaceOf(ops, k, z));
              && info.server == place.server
              && info.inTransfer == place.target.Some?
              && info.newServer == if place.target.Some? then place.target.value else NOWHERE
  {
    if k > 0 {
      var i := k - 1;
      ZoneInRun(ns, ops, i, z);
      if ZoneKnown(ops, i, z) {
        var place := PlaceOf(ops, i, z);
        KnownInRun(ns, ops, i, place.server, z, 0);
        KnownInRun(ns, ops, i, if place.target.Some? then place.target.value else 0, z, 0);
      }
      KnownInRun(ns, ops, i, if ops[i].StartTransfer? then ops[i].s else 0, z, 0);
      assert Step(ns[i], ops[i], ns[i + 1]);
    }
  }

  // ---------- fan-out ----------

  /** The connected users whose zone is on server s, each with the connection. */
  ghost predicate IsRecipient(n: Net, s: int, u: int, c: Connection) {
    && s in n.servers && u in n.users && !n.users[u].freed && n.users[u].connection == Some(c)
    && n.users[u].zone in n.zones && n.zones[n.users[u].zone].server == s
  }

  /**
   Who gets what is sent to a server's users, in every run of a fresh router: the users that were not
   deleted, on the connection last given to them, if the zone last given to them is on the server.
   */
  lemma RecipientInRun(ns: seq<Net>, ops: seq<Op>, k: nat, s: int, u: int, c: Connection)
    requires IsRun(ns, ops) && ns[0] == EmptyNet && k <= |ops|
    ensures IsRecipient(ns[k], s, u, c)
       <==> && ServerKnown(ops, k, s) && UserKnown(ops, k, u) && !DeletedBy(ns, ops, k, u)
            && ConnectionOf(ops, k, u) == Some(c)
            && ZoneKnown(ops, k, ZoneOf(ops, k, u)) && PlaceOf(ops, k, ZoneOf(ops, k, u)).server == s
  {
    KnownInRun(ns, ops, k, s, ZoneOf(ops, k, u), u);
    UserInRun(ns, ops, k, u);
    ZoneInRun(ns, ops, k, ZoneOf(ops, k, u));
    FreedExactlyWhenDeleted(ns, ops, k, u);
  }
}
