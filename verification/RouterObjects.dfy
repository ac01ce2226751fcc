/**
 The router's objects: servers, zones and users pointing at one another, changed in place.
 `Router.View` reads them as a `Net`, and every operation is proved to do to the view what module
 RouterNet says. Each operation runs under the router's mutexes and is one atomic step.
 */
module RouterObjects {
  import opened Ascending
  import opened Options
  import opened RouterNet

  /** One copy of a message handed to the connection of a user found in a zone. */
  datatype Delivery = Delivery(zone: int, user: int, connection: Connection)

  /** The order in which nested walks over the tables, by ascending key, reach the users. */
  predicate Before(a: Delivery, b: Delivery) {
    a.zone < b.zone || (a.zone == b.zone && a.user < b.user)
  }

  class User {
    const id: int
    var token: int
    var zone: int
    var connection: Option<Connection>
    ghost var freed: bool // deleted, but still in the router's table

    constructor (id: int, token: int)
      ensures this.id == id && View() == UserInfo(token, NOWHERE, None, false)
    {
      this.id, this.token, zone, connection, freed := id, token, NOWHERE, None, false;
    }

    ghost function View(): UserInfo
      reads this
    {
      UserInfo(token, zone, connection, freed)
    }
  }

  class Zone {
    const id: int
    var server: int
    var newServer: int
    var inTransfer: bool
    var users: map<int, User>

    constructor (id: int)
      ensures this.id == id && users == map[] && View() == ZoneInfo(NOWHERE, NOWHERE, false, {})
    {
      this.id, server, newServer, inTransfer, users := id, NOWHERE, NOWHERE, false, map[];
    }

    ghost function View(): ZoneInfo
      reads this
    {
      ZoneInfo(server, newServer, inTransfer, users.Keys)
    }

    method StartTransfer(target: int)
      modifies this
      ensures View() == old(View()).(newServer := target, inTransfer := true) && users == old(users)
    {
      newServer := target;
      inTransfer := true;
    }

    method EndTransfer()
      modifies this
      ensures View() == (if old(inTransfer)
                         then old(View()).(server := old(newServer), newServer := NOWHERE, inTransfer := false)
                         else old(View()))
      ensures users == old(users)
    {
      if inTransfer {
        server := newServer;
        newServer := NOWHERE;
        inTransfer := false;
      }
    }

    /** Each connected user of the zone gets one copy; `number` is the number the zone is listed under. */
    method SendToUsers(number: int) returns (sent: seq<Delivery>)
      ensures forall d :: d in sent <==> d.zone == number && ReachesUser(this, d)
      ensures forall i, j :: 0 <= i < j < |sent| ==> Before(sent[i], sent[j])
    {
      sent := [];
      var rest := users.Keys;
      while rest != {}
        invariant rest <= users.Keys
        invariant forall d :: d in sent <==> d.zone == number && d.user !in rest && ReachesUser(this, d)
        invariant forall i, u :: 0 <= i < |sent| && u in rest ==> sent[i].user < u
        invariant forall i, j :: 0 <= i < j < |sent| ==> Before(sent[i], sent[j])
        decreases rest
      {
        HasLeast(rest);
        var u :| u in rest && forall v :: v in rest ==> u <= v;
        var usr := users[u];
        if usr.connection.Some? {
          sent := sent + [Delivery(number, u, usr.connection.value)];
        }
        rest := rest - {u};
      }
    }

    method AddUser(usr: User)
      modifies this
      ensures users == if usr.id in old(users) then old(users) else old(users)[usr.id := usr]
      ensures View() == old(View()).(users := old(users).Keys + {usr.id})
    {
      if usr.id !in users {
        users := users[usr.id := usr];
      }
    }

    method DelUser(idUser: int)
      modifies this
      ensures users == old(users) - {idUser}
      ensures View() == old(View()).(users := old(users).Keys - {idUser})
    {
      if idUser in users {
        users := users - {idUser};
      } else {
        assert users - {idUser} == users;
      }
    }
  }

  /** What a walk over the users of one zone must hand out. */
  ghost predicate ReachesUser(zn: Zone, d: Delivery)
    reads zn, zn.users.Values
  {
    d.user in zn.users && zn.users[d.user].connection == Some(d.connection)
  }

  class Server {
    const id: int
    var zones: map<int, Zone>

    constructor (id: int)
      ensures this.id == id && zones == map[]
    {
      this.id, zones := id, map[];
    }

    /** Each connected user of each listed zone gets one copy per listing. */
    method SendToUsers() returns (sent: seq<Delivery>)
      ensures forall d :: d in sent <==> d.zone in zones && ReachesUser(zones[d.zone], d)
      ensures forall i, j :: 0 <= i < j < |sent| ==> Before(sent[i], sent[j])
    {
      sent := [];
      var rest := zones.Keys;
      while rest != {}
        invariant rest <= zones.Keys
        invariant forall d :: d in sent <==> d.zone in zones && d.zone !in rest && ReachesUser(zones[d.zone], d)
        invariant forall i, z :: 0 <= i < |sent| && z in rest ==> sent[i].zone < z
        invariant forall i, j :: 0 <= i < j < |sent| ==> Before(sent[i], sent[j])
        decreases rest
      {
        HasLeast(rest);
        var z :| z in rest && forall y :: y in rest ==> z <= y;
        var more := zones[z].SendToUsers(z);
        assert forall i :: 0 <= i < |more| ==> more[i] in more;
        sent := sent + more;
        rest := rest - {z};
      }
    }

    method AddZone(z: Zone)
      modifies this
      ensures zones == old(zones)[z.id := z]
    {
      zones := zones[z.id := z];
    }

    method DelZone(idZone: int)
      modifies this
      ensures zones == old(zones) - {idZone}
    {
      if idZone in zones {
        zones := zones - {idZone};
      } else {
        assert zones - {idZone} == zones;
      }
    }
  }

  class Router {
    var servers: map<int, Server>
    var zones: map<int, Zone>
    var users: map<int, User>

    ghost function View(): Net
      reads this, servers.Values, zones.Values, users.Values
    {
      Net(ServersView(), ZonesView(), UsersView())
    }

    ghost function ServersView(): map<int, set<int>>
      reads this, servers.Values
    {
      map s | s in servers :: servers[s].zones.Keys
    }

    ghost function ZonesView(): map<int, ZoneInfo>
      reads this, zones.Values
    {
      map z | z in zones :: zones[z].View()
    }

    ghost function UsersView(): map<int, UserInfo>
      reads this, users.Values
    {
      map u | u in users :: users[u].View()
    }

    /** Every object is filed under its own number, and the tables inside the objects share the router's objects. */
    ghost predicate Shared()
      reads this, servers.Values, zones.Values, users.Values
    {
      && Filed()
      && (forall s :: s in servers ==> SharesZones(servers[s]))
      && (forall z :: z in zones ==> SharesUsers(zones[z]))
    }

    ghost predicate SharesZones(srv: Server)
      reads this, srv
    {
      forall z :: z in srv.zones ==> z in zones && srv.zones[z] == zones[z]
    }

    ghost predicate SharesUsers(zn: Zone)
      reads this, zn
    {
      forall u :: u in zn.users ==> u in users && zn.users[u] == users[u]
    }

    /** Each object sits under its own number, so a change to one object changes one entry of the view. */
    ghost predicate Filed()
      reads this
    {
      && (forall s :: s in servers ==> servers[s].id == s)
      && (forall z :: z in zones ==> zones[z].id == z)
      && (forall u :: u in users ==> users[u].id == u)
    }

    /** Tables that only drop entries, or file the router's own objects, stay shared. */
    twostate lemma StillShared()
      requires old(Shared()) && servers == old(servers) && zones == old(zones) && users == old(users)
      requires forall o :: o in servers.Values ==> SharesZones(o) || o.zones.Items <= old(o.zones.Items)
      requires forall o :: o in zones.Values ==> SharesUsers(o) || o.users.Items <= old(o.users.Items)
      ensures Shared()
    {
      forall s | s in servers ensures SharesZones(servers[s]) {
        var o := servers[s];
        assert o in servers.Values && old(SharesZones(o));
        forall z | z in o.zones
          ensures o.zones.Items <= old(o.zones.Items) ==> z in old(o.zones) && o.zones[z] == old(o.zones[z])
        {
          assert (z, o.zones[z]) in o.zones.Items;
        }
      }
      forall z | z in zones ensures SharesUsers(zones[z]) {
        var o := zones[z];
        assert o in zones.Values && old(SharesUsers(o));
        forall u | u in o.users
          ensures o.users.Items <= old(o.users.Items) ==> u in old(o.users) && o.users[u] == old(o.users[u])
        {
          assert (u, o.users[u]) in o.users.Items;
        }
      }
    }

    twostate lemma ServerChanged(k: int)
      requires Filed() && servers == old(servers) && k in servers
      requires forall o :: o in servers.Values && o != servers[k] ==> unchanged(o)
      ensures ServersView() == old(ServersView())[k := servers[k].zones.Keys]
    {
      forall s | s in servers && s != k ensures servers[s].zones == old(servers[s].zones) {
        assert servers[s].id != servers[k].id && servers[s] in servers.Values;
      }
    }

    twostate lemma ZoneChanged(k: int)
      requires Filed() && zones == old(zones) && k in zones
      requires forall o :: o in zones.Values && o != zones[k] ==> unchanged(o)
      ensures ZonesView() == old(ZonesView())[k := zones[k].View()]
    {
      forall z | z in zones && z != k ensures zones[z].View() == old(zones[z].View()) {
        assert zones[z].id != zones[k].id && zones[z] in zones.Values;
      }
    }

    twostate lemma UserChanged(k: int)
      requires Filed() && users == old(users) && k in users
      requires forall o :: o in users.Values && o != users[k] ==> unchanged(o)
      ensures UsersView() == old(UsersView())[k := users[k].View()]
    {
      forall u | u in users && u != k ensures users[u].View() == old(users[u].View()) {
        assert users[u].id != users[k].id && users[u] in users.Values;
      }
    }

    constructor ()
      ensures Shared() && View() == EmptyNet
    {
      servers, zones, users := map[], map[], map[];
    }

    // A new object is filed under its number.

    method FileServer(srv: Server)
      requires Shared() && srv.id !in servers && srv.zones == map[]
      modifies this
      ensures Shared() && View() == old(View()).(servers := old(View()).servers[srv.id := {}])
    {
      assert srv.zones.Keys == {};
      servers := servers[srv.id := srv];
      assert ServersView() == old(ServersView())[srv.id := {}];
    }

    method FileZone(zn: Zone)
      requires Shared() && zn.id !in zones && zn.users == map[]
      modifies this
      ensures Shared() && View() == old(View()).(zones := old(View()).zones[zn.id := zn.View()])
    {
      zones := zones[zn.id := zn];
      assert ZonesView() == old(ZonesView())[zn.id := zn.View()];
    }

    method FileUser(usr: User)
      requires Shared() && usr.id !in users
      modifies this
      ensures Shared() && View() == old(View()).(users := old(View()).users[usr.id := usr.View()])
    {
      users := users[usr.id := usr];
      assert UsersView() == old(UsersView())[usr.id := usr.View()];
    }

    method AddServer(idServer: int)
      requires Shared()
      modifies this
      ensures Shared() && View() == After(old(View()), Op.AddServer(idServer))
    {
      if idServer !in servers {
        var srv := new Server(idServer);
        FileServer(srv);
      }
    }

    method DelServer(idServer: int)
      requires Shared()
      modifies this
      ensures Shared() && View() == After(old(View()), Op.DelServer(idServer))
    {
      if idServer in servers {
        servers := servers - {idServer};
      } else {
        assert View().servers - {idServer} == View().servers;
      }
    }

    method AddZone(idZone: int)
      requires Shared()
      modifies this
      ensures Shared() && View() == After(old(View()), Op.AddZone(idZone))
    {
      if idZone !in zones {
        var zn := new Zone(idZone);
        FileZone(zn);
      }
    }

    // The steps of the operations below: each changes one object, and one entry of the view.

    method Unlist(s: int, z: int)
      requires Shared() && s in servers
      modifies servers[s]
      ensures Shared() && View() == old(View()).(servers := RouterNet.Unlist(old(View()).servers, s, z))
    {
      servers[s].DelZone(z);
      ServerChanged(s);
      StillShared();
    }

    method List(s: int, z: int)
      requires Shared() && s in servers && z in zones
      modifies servers[s]
      ensures Shared() && View() == old(View()).(servers := old(View()).servers[s := old(View()).servers[s] + {z}])
    {
      servers[s].AddZone(zones[z]);
      ServerChanged(s);
      assert servers[s].zones.Keys == old(servers[s].zones).Keys + {z};
      StillShared();
    }

    method Join(z: int, u: int)
      requires Shared() && z in zones && u in users
      modifies zones[z]
      ensures Shared() && View() == old(View()).(zones :=
                old(View()).zones[z := old(View()).zones[z].(users := old(View()).zones[z].users + {u})])
    {
      zones[z].AddUser(users[u]);
      ZoneChanged(z);
      StillShared();
    }

    method Leave(z: int, u: int)
      requires Shared() && z in zones
      modifies zones[z]
      ensures Shared() && View() == old(View()).(zones := Dismiss(old(View()).zones, z, u))
    {
      zones[z].DelUser(u);
      ZoneChanged(z);
      StillShared();
    }

    method Settle(u: int, z: int)
      requires Shared() && u in users
      modifies users[u]
      ensures Shared() && View() == old(View()).(users := old(View()).users[u := old(View()).users[u].(zone := z)])
    {
      users[u].zone := z;
      UserChanged(u);
      StillShared();
    }

    method Retoken(u: int, token: int)
      requires Shared() && u in users
      modifies users[u]
      ensures Shared() && View() == old(View()).(users := old(View()).users[u := old(View()).users[u].(token := token)])
    {
      users[u].token := token;
      UserChanged(u);
      StillShared();
    }

    method Free(u: int)
      requires Shared() && u in users
      modifies users[u]
      ensures Shared() && View() == old(View()).(users := old(View()).users[u := old(View()).users[u].(freed := true)])
    {
      users[u].freed := true;
      UserChanged(u);
      StillShared();
    }

    method Arrive(z: int)
      requires Shared() && z in zones && zones[z].inTransfer
      modifies zones[z]
      ensures Shared()
      ensures var info := old(View()).zones[z];
              View() == old(View()).(zones := old(View()).zones[z :=
                info.(server := info.newServer, newServer := NOWHERE, inTransfer := false)])
    {
      zones[z].EndTransfer();
      ZoneChanged(z);
      StillShared();
    }

    method Forget(z: int)
      requires Shared() && z in zones
      requires forall s :: s in servers ==> z !in servers[s].zones
      modifies this
      ensures Shared() && View() == old(View()).(zones := old(View()).zones - {z})
    {
      zones := zones - {z};
      assert ZonesView() == old(ZonesView()) - {z};
    }

    /** Only the zone's own server drops it, so no other server may list it. */
    method DelZone(idZone: int)
      requires Shared() && ListingsTrue(View())
      modifies this, servers.Values
      ensures Shared() && View() == After(old(View()), Op.DelZone(idZone))
    {
      if idZone in zones {
        var home := zones[idZone].server;
        assert View().zones[idZone].server == home;
        assert forall s :: s in servers && s != home ==> idZone !in View().servers[s];
        if home in servers {
          Unlist(home, idZone);
        }
        assert forall s :: s in servers ==> idZone !in View().servers[s];
        Forget(idZone);
      }
    }

    method StartZoneToServerTransfer(idZone: int, newServer: int)
      requires Shared()
      modifies zones.Values
      ensures Shared() && View() == After(old(View()), Op.StartTransfer(idZone, newServer))
    {
      if idZone in zones && newServer in servers {
        zones[idZone].StartTransfer(newServer);
        ZoneChanged(idZone);
      }
    }

    method EndZoneToServerTransfer(idZone: int)
      requires Shared()
      modifies zones.Values, servers.Values
      ensures Shared() && View() == After(old(View()), Op.EndTransfer(idZone))
    {
      if idZone in zones && zones[idZone].inTransfer {
        var oldServer := zones[idZone].server;
        var newServer := zones[idZone].newServer;
        if oldServer in servers && newServer in servers {
          Unlist(oldServer, idZone);
          List(newServer, idZone);
          Arrive(idZone);
        }
      }
    }

    method AddUser(idUser: int, token: int)
      requires Shared() && Defined(View(), Op.AddUser(idUser, token))
      modifies this, users.Values
      ensures Shared() && View() == After(old(View()), Op.AddUser(idUser, token))
    {
      if idUser !in users {
        var usr := new User(idUser, token);
        FileUser(usr);
      } else {
        Retoken(idUser, token);
      }
    }

    method SetUserToZone(idUser: int, idZone: int)
      requires Shared() && Defined(View(), Op.SetUserToZone(idUser, idZone))
      modifies zones.Values, users.Values
      ensures Shared() && View() == After(old(View()), Op.SetUserToZone(idUser, idZone))
    {
      if idUser in users && idZone in zones {
        var oldZone := users[idUser].zone;
        Join(idZone, idUser);
        Leave(oldZone, idUser);
        Settle(idUser, idZone);
      }
    }

    method DelUser(idUser: int)
      requires Shared() && Defined(View(), Op.DelUser(idUser))
      modifies zones.Values, users.Values
      ensures Shared() && View() == After(old(View()), Op.DelUser(idUser))
    {
      if idUser in users {
        var zone := users[idUser].zone;
        if zone in zones {
          Leave(zone, idUser);
        }
        Free(idUser);
      }
    }

    /** The answer is that of `User::validate`, which stores the token and tells whether it is not 0. */
    method ValidateUser(idUser: int, token: int) returns (valid: bool)
      requires Shared() && Defined(View(), Op.ValidateUser(idUser, token))
      modifies users.Values
      ensures Shared() && View() == After(old(View()), Op.ValidateUser(idUser, token))
      ensures valid <==> idUser in users && token != 0
    {
      valid := false;
      if idUser in users {
        Retoken(idUser, token);
        valid := token != 0;
      }
    }

    method Attach(u: int, c: Connection)
      requires Shared() && u in users
      modifies users[u]
      ensures Shared()
      ensures View() == old(View()).(users := old(View()).users[u := old(View()).users[u].(connection := Some(c))])
    {
      users[u].connection := Some(c);
      UserChanged(u);
      StillShared();
    }

    method ConnectUser(idUser: int, token: int, c: Connection)
      requires Shared() && Defined(View(), Op.ConnectUser(idUser, token, c))
      modifies users.Values
      ensures Shared() && View() == After(old(View()), Op.ConnectUser(idUser, token, c))
    {
      var valid := ValidateUser(idUser, token);
      if valid {
        Attach(idUser, c);
      }
    }

    /** The connection that gets the message, if the user is known and connected. */
    method SendToUser(idUser: int) returns (sent: Option<Connection>)
      requires Shared() && Defined(View(), Op.SendToUser(idUser))
      ensures sent == if idUser in View().users then View().users[idUser].connection else None
    {
      sent := if idUser in users then users[idUser].connection else None;
    }

    /**
     Sending to a server's users: nobody but the connected users whose zone is on the server gets a
     copy, and nobody gets two. Where the indexes agree each of those users gets one.
     */
    method SendToServerUsers(idServer: int) returns (sent: seq<Delivery>)
      requires Shared() && ListingsTrue(View()) && HoldingsTrue(View())
      ensures forall d :: d in sent ==> IsRecipient(View(), idServer, d.user, d.connection)
      ensures forall i, j :: 0 <= i < j < |sent| ==> sent[i].user != sent[j].user
      ensures Agree(View()) ==>
                forall u, c :: IsRecipient(View(), idServer, u, c) ==> Delivery(View().users[u].zone, u, c) in sent
    {
      sent := [];
      if idServer in servers {
        sent := servers[idServer].SendToUsers();
        forall d | d in sent
          ensures IsRecipient(View(), idServer, d.user, d.connection) && users[d.user].zone == d.zone
        {
          FoundInItsZone(idServer, d);
        }
        forall u, c | Agree(View()) && IsRecipient(View(), idServer, u, c)
          ensures Delivery(users[u].zone, u, c) in sent
        {
          Found(idServer, u, c);
        }
        forall i, j | 0 <= i < j < |sent| ensures sent[i].user != sent[j].user {
          assert sent[i] in sent && sent[j] in sent && Before(sent[i], sent[j]);
        }
      }
    }

    /** The walk meets no freed user: all that a listed zone holds are there. */
    lemma MeetsNoFreedUser(s: int, z: int, u: int)
      requires Shared() && ListingsTrue(View()) && HoldingsTrue(View())
      requires s in servers && z in servers[s].zones && u in servers[s].zones[z].users
      ensures u in users && servers[s].zones[z].users[u] == users[u] && !users[u].freed && users[u].zone == z
    {
      var n := View();
      assert SharesZones(servers[s]) && SharesUsers(zones[z]);
      assert z in n.servers[s] && u in n.zones[z].users;
      assert LivesIn(n, u, z);
    }

    lemma FoundInItsZone(s: int, d: Delivery)
      requires Shared() && ListingsTrue(View()) && HoldingsTrue(View()) && s in servers
      requires d.zone in servers[s].zones && ReachesUser(servers[s].zones[d.zone], d)
      ensures IsRecipient(View(), s, d.user, d.connection) && users[d.user].zone == d.zone
    {
      MeetsNoFreedUser(s, d.zone, d.user);
      var n := View();
      assert SharesZones(servers[s]);
      assert d.zone in n.servers[s] && n.zones[d.zone].server == s;
      assert n.users[d.user] == users[d.user].View();
    }

    lemma Found(s: int, u: int, c: Connection)
      requires Shared() && Agree(View()) && IsRecipient(View(), s, u, c)
      ensures var z := users[u].zone;
              z in servers[s].zones && ReachesUser(servers[s].zones[z], Delivery(z, u, c))
    {
      var n, z := View(), users[u].zone;
      assert LivesIn(n, u, z);
      assert SharesZones(servers[s]) && SharesUsers(zones[z]);
      assert z in n.servers[s] && u in n.zones[z].users;
    }
  }
}
