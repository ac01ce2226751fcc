/**
 How the control server hands out the zones at start-up (`Control::zoneAssignment`): a block of the
 first zones goes to the front server, the rest go round robin to the servers that are online. Each
 assignment is also sent to the server as an order.
 */
module ControlZones {

  /** A server number: a 32-bit word, used as a shift amount by the load round. */
  type Id = bv32

  // ---------- who gets which zone ----------

  /** The online servers among the first k, as places in the list. */
  function Online(flags: seq<bool>, k: nat): seq<nat>
    requires k <= |flags|
  {
    if k == 0 then [] else Online(flags, k - 1) + if flags[k - 1] then [k - 1] else []
  }

  lemma {:induction false} OnlineAt(flags: seq<bool>, k: nat, r: nat)
    requires k <= |flags| && r < |Online(flags, k)|
    ensures Online(flags, k)[r] < k && flags[Online(flags, k)[r]]
    ensures forall q :: 0 <= q < r ==> Online(flags, k)[q] < Online(flags, k)[r]
  {
    if r < |Online(flags, k - 1)| {
      OnlineAt(flags, k - 1, r);
    } else {
      forall q | 0 <= q < r ensures Online(flags, k)[q] < k - 1 {
        OnlineAt(flags, k - 1, q);
      }
    }
  }

  /** An online server's place among the online servers. */
  lemma {:induction false} OnlineRank(flags: seq<bool>, j: nat, k: nat)
    requires j < k <= |flags| && flags[j]
    ensures |Online(flags, j)| < |Online(flags, k)| && Online(flags, k)[|Online(flags, j)|] == j
  {
    if j < k - 1 {
      OnlineRank(flags, j, k - 1);
    }
  }

  lemma SomeoneOnline(flags: seq<bool>)
    requires true in flags
    ensures |Online(flags, |flags|)| > 0
  {
    var j :| 0 <= j < |flags| && flags[j];
    OnlineRank(flags, j, |flags|);
  }

  lemma {:induction false} AscendsWithoutGap(s: seq<nat>, r: nat)
    requires forall a, b :: 0 <= a < b < |s| ==> s[a] < s[b]
    requires forall i: nat :: i < |s| ==> i in s
    requires r < |s|
    ensures forall q :: 0 <= q <= r ==> s[q] == q
  {
    if r > 0 {
      AscendsWithoutGap(s, r - 1);
    }
    assert r in s;
    var q :| 0 <= q < |s| && s[q] == r;
    assert q >= r && s[r] <= s[q];
    assert r > 0 ==> s[r - 1] == r - 1 && s[r - 1] < s[r];
  }

  /** The numbers of the servers that answer are those below their count. */
  ghost predicate WithoutGap(answers: seq<bool>) {
    forall i: nat :: i < |Online(answers, |answers|)| ==> i in Online(answers, |answers|)
  }

  /** No server is missing before one that answers. */
  ghost predicate NoneMissing(answers: seq<bool>) {
    forall i, j :: 0 <= i < j < |answers| && answers[j] ==> answers[i]
  }

  lemma GivenIfNoneMissing(answers: seq<bool>, i: nat)
    requires NoneMissing(answers) && i < |Online(answers, |answers|)|
    ensures i in Online(answers, |answers|)
  {
    var numbers := Online(answers, |answers|);
    var v := numbers[i];
    OnlineAt(answers, |answers|, i);
    AllBefore(answers, v);
    OnlineRank(answers, v, |answers|);
    OnlineAt(answers, |answers|, v);
    assert numbers[v] == v && i == v;
  }

  lemma WithoutGapBefore(answers: seq<bool>, i: nat, j: nat)
    requires WithoutGap(answers) && i < j < |answers| && answers[j]
    ensures answers[i]
  {
    var numbers := Online(answers, |answers|);
    OnlineRank(answers, j, |answers|);
    var r := |Online(answers, j)|;
    forall a, b | 0 <= a < b < |numbers| ensures numbers[a] < numbers[b] {
      OnlineAt(answers, |answers|, b);
    }
    AscendsWithoutGap(numbers, r);
    OnlineAt(answers, |answers|, i);
  }

  /**
   Start-up numbers the servers it reaches by their places in the list of addresses, and then counts
   n of them. The numbers are those below n exactly when no server is missing before one that answers.
   */
  lemma WithoutGapExactlyWhen(answers: seq<bool>)
    ensures WithoutGap(answers) <==> NoneMissing(answers)
  {
    if WithoutGap(answers) {
      forall i, j | 0 <= i < j < |answers| && answers[j] ensures answers[i] {
        WithoutGapBefore(answers, i, j);
      }
    }
    if NoneMissing(answers) {
      forall i: nat | i < |Online(answers, |answers|)| ensures i in Online(answers, |answers|) {
        GivenIfNoneMissing(answers, i);
      }
    }
  }

  lemma {:induction false} AllBefore(answers: seq<bool>, k: nat)
    requires k <= |answers| && forall i :: 0 <= i < k ==> answers[i]
    ensures |Online(answers, k)| == k
  {
    if k > 0 {
      AllBefore(answers, k - 1);
    }
  }

  /** Turn t of m takers: whose it is, and how many full rounds went before. */
  function Turn(t: nat, m: nat): (r: nat)
    requires m > 0
    ensures r < m
  {
    if t < m then t else Turn(t - m, m)
  }

  function Rounds(t: nat, m: nat): nat
    requires m > 0
  {
    if t < m then 0 else 1 + Rounds(t - m, m)
  }

  lemma {:induction false} NextTurn(t: nat, m: nat)
    requires m > 0
    ensures if Turn(t, m) == m - 1 then Turn(t + 1, m) == 0 && Rounds(t + 1, m) == Rounds(t, m) + 1
            else Turn(t + 1, m) == Turn(t, m) + 1 && Rounds(t + 1, m) == Rounds(t, m)
  {
    if t >= m {
      NextTurn(t - m, m);
    }
  }

  const NOBODY := -1

  /** The front server takes the block of the first zones, if it is online; then the online servers take turns. */
  function Owner(flags: seq<bool>, block: nat, z: nat): int
    requires |flags| > 0
  {
    var online := Online(flags, |flags|);
    if z < block then (if flags[0] then 0 else NOBODY)
    else if online == [] then NOBODY
    else online[Turn(z - block, |online|)]
  }

  lemma OwnerIsOnline(flags: seq<bool>, block: nat, z: nat)
    requires true in flags && (flags[0] || z >= block)
    ensures 0 <= Owner(flags, block, z) < |flags| && flags[Owner(flags, block, z)]
  {
    SomeoneOnline(flags);
    if z >= block {
      OnlineAt(flags, |flags|, Turn(z - block, |Online(flags, |flags|)|));
    }
  }

  /** Every zone gets an online server exactly when the front server is online or has no block to take. */
  lemma EveryZoneOwnedExactlyWhen(flags: seq<bool>, n: nat, zones: nat)
    requires n > 0 && true in flags
    ensures (forall z :: 0 <= z < zones ==>
               0 <= Owner(flags, zones % n, z) < |flags| && flags[Owner(flags, zones % n, z)])
       <==> flags[0] || zones % n == 0
  {
    var block := zones % n;
    if flags[0] || block == 0 {
      forall z | 0 <= z < zones ensures 0 <= Owner(flags, block, z) < |flags| && flags[Owner(flags, block, z)] {
        OwnerIsOnline(flags, block, z);
      }
    } else {
      assert zones > 0 && Owner(flags, block, 0) == NOBODY;
    }
  }

  // ---------- rounds of turns ----------

  /** A round of turns starts at zone `base`. */
  ghost predicate RoundStarts(flags: seq<bool>, block: nat, base: nat) {
    var m := |Online(flags, |flags|)|;
    m > 0 && base >= block && Turn(base - block, m) == 0
  }

  lemma {:induction false} TurnAfter(t: nat, r: nat, m: nat)
    requires r <= m && m > 0 && Turn(t, m) == 0
    ensures Turn(t + r, m) == if r < m then r else 0
  {
    if r > 0 {
      TurnAfter(t, r - 1, m);
      NextTurn(t + r - 1, m);
    }
  }

  /** In a round that starts at `base` the online servers take the zones from there in the order of the list. */
  lemma TakesTurn(flags: seq<bool>, block: nat, base: nat, j: nat)
    requires RoundStarts(flags, block, base) && j < |flags| && flags[j]
    ensures Owner(flags, block, base + |Online(flags, j)|) == j
  {
    OnlineRank(flags, j, |flags|);
    TurnAfter(base - block, |Online(flags, j)|, |Online(flags, |flags|)|);
  }

  lemma NextRoundStarts(flags: seq<bool>, block: nat, base: nat)
    requires RoundStarts(flags, block, base)
    ensures RoundStarts(flags, block, base + |Online(flags, |flags|)|)
  {
  }

  lemma {:induction false} TurnOfRound(q: nat, r: nat, m: nat)
    requires r < m
    ensures Turn(q * m + r, m) == r
  {
    if q > 0 {
      assert q * m + r == ((q - 1) * m + r) + m;
      assert q * m + r >= m;
      TurnOfRound(q - 1, r, m);
    }
  }

  /**
   Who gets which zone: the block goes to the front server if that is online, and to nobody else; in
   round q of the turns the zones after the block go to the online servers in the order of the list.
   */
  lemma OwnerExactly(flags: seq<bool>, block: nat, z: nat, q: nat, j: nat)
    requires j < |flags| && flags[j]
    ensures z < block ==> Owner(flags, block, z) == if flags[0] then 0 else -1
    ensures Owner(flags, block, block + (q * |Online(flags, |flags|)| + |Online(flags, j)|)) == j
  {
    OnlineRank(flags, j, |flags|);
    TurnOfRound(q, |Online(flags, j)|, |Online(flags, |flags|)|);
  }

  /** The rank of a server is the number of servers before it that are online. */
  lemma {:induction false} RankCounts(flags: seq<bool>, j: nat)
    requires j < |flags|
    ensures |Online(flags, 0)| == 0
    ensures |Online(flags, j + 1)| == |Online(flags, j)| + if flags[j] then 1 else 0
  {
  }

  // ---------- fair shares ----------

  /** How many of the zones from `from` up to k belong to server i. */
  function Count(flags: seq<bool>, block: nat, i: nat, from: nat, k: nat): nat
    requires |flags| > 0
  {
    if k <= from then 0
    else Count(flags, block, i, from, k - 1) + if Owner(flags, block, k - 1) == i then 1 else 0
  }

  /** After t turns a server has had one in each full round, and one more if its turn in this round is over. */
  lemma {:induction false} TurnsOf(flags: seq<bool>, block: nat, i: nat, t: nat)
    requires i < |flags| && flags[i]
    ensures |Online(flags, |flags|)| > 0
    ensures var m, r := |Online(flags, |flags|)|, |Online(flags, i)|;
            Count(flags, block, i, block, block + t) == Rounds(t, m) + if r < Turn(t, m) then 1 else 0
  {
    var online, r := Online(flags, |flags|), |Online(flags, i)|;
    OnlineRank(flags, i, |flags|);
    if t > 0 {
      TurnsOf(flags, block, i, t - 1);
      NextTurn(t - 1, |online|);
      var turn := Turn(t - 1, |online|);
      assert Owner(flags, block, block + t - 1) == online[turn];
      OnlineAt(flags, |flags|, turn);
      OnlineAt(flags, |flags|, r);
      assert online[turn] == i <==> turn == r;
    }
  }

  /** Apart from the front server's block, the shares of any two online servers differ by at most one. */
  lemma FairShares(flags: seq<bool>, n: nat, zones: nat, i: nat, j: nat)
    requires n > 0 && i < |flags| && j < |flags| && flags[i] && flags[j]
    ensures var block := zones % n;
            Count(flags, block, i, block, zones) <= Count(flags, block, j, block, zones) + 1
  {
    var block := zones % n;
    assert block <= zones;
    TurnsOf(flags, block, i, zones - block);
    TurnsOf(flags, block, j, zones - block);
  }

  // ---------- the orders ----------

  /** An order to the server at a place of the list to take a zone. */
  datatype Order = Order(place: nat, zone: nat)

  /** The orders for the first k zones: ascending zones, each to its owner. */
  function Orders(flags: seq<bool>, block: nat, k: nat): seq<Order>
    requires |flags| > 0
  {
    if k == 0 then []
    else Orders(flags, block, k - 1) + OrderFor(k - 1, Owner(flags, block, k - 1))
  }

  function OrderFor(zone: nat, owner: int): seq<Order> {
    if owner < 0 then [] else [Order(owner, zone)]
  }

  /** The zones below k of one server, in the order they are handed out. */
  function Share(flags: seq<bool>, block: nat, k: nat, place: nat): seq<nat>
    requires |flags| > 0
  {
    if k == 0 then []
    else Share(flags, block, k - 1, place) + if Owner(flags, block, k - 1) == place then [k - 1] else []
  }

  /** The share lists the zones below k that belong to the place, once each and in ascending order. */
  ghost predicate IsShare(flags: seq<bool>, block: nat, k: nat, place: nat, share: seq<nat>)
    requires |flags| > 0
  {
    && (forall z: nat :: z in share <==> z < k && Owner(flags, block, z) == place)
    && (forall a, b :: 0 <= a < b < |share| ==> share[a] < share[b])
  }

  lemma ShareGrows(flags: seq<bool>, block: nat, k: nat, place: nat, share: seq<nat>)
    requires |flags| > 0 && IsShare(flags, block, k, place, share)
    ensures IsShare(flags, block, k + 1, place, share + if Owner(flags, block, k) == place then [k] else [])
  {
    assert forall a :: 0 <= a < |share| ==> share[a] in share;
  }

  lemma {:induction false} ShareIsShare(flags: seq<bool>, block: nat, k: nat, place: nat)
    requires |flags| > 0
    ensures IsShare(flags, block, k, place, Share(flags, block, k, place))
  {
    if k > 0 {
      ShareIsShare(flags, block, k - 1, place);
      ShareGrows(flags, block, k - 1, place, Share(flags, block, k - 1, place));
    }
  }

  /** The zones that a server finds in the orders sent to it, in order. */
  function Received(orders: seq<Order>, place: nat): seq<nat> {
    if orders == [] then []
    else (if orders[0].place == place then [orders[0].zone] else []) + Received(orders[1..], place)
  }

  lemma {:induction false} ReceivedAppend(orders: seq<Order>, more: seq<Order>, place: nat)
    ensures Received(orders + more, place) == Received(orders, place) + Received(more, place)
  {
    if orders == [] {
      assert orders + more == more;
    } else {
      var all, rest := orders + more, orders[1..];
      assert all[0] == orders[0] && all[1..] == rest + more;
      ReceivedAppend(rest, more, place);
      var head := if orders[0].place == place then [orders[0].zone] else [];
      var front, back := Received(rest, place), Received(more, place);
      assert head + (front + back) == (head + front) + back;
    }
  }

  lemma OneMoreOrder(orders: seq<Order>, share: seq<nat>, zone: nat, owner: int, place: nat)
    requires Received(orders, place) == share
    ensures Received(orders + OrderFor(zone, owner), place) == share + if owner == place then [zone] else []
  {
    ReceivedAppend(orders, OrderFor(zone, owner), place);
  }

  /** The orders bring each server exactly its share. */
  lemma {:induction false} OrdersBringShares(flags: seq<bool>, block: nat, k: nat, place: nat)
    requires |flags| > 0
    ensures Received(Orders(flags, block, k), place) == Share(flags, block, k, place)
  {
    if k > 0 {
      OrdersBringShares(flags, block, k - 1, place);
      OneMoreOrder(Orders(flags, block, k - 1), Share(flags, block, k - 1, place), k - 1,
                   Owner(flags, block, k - 1), place);
    }
  }

  // ---------- the loops as they run ----------

  /**
   zoneIndex, zonesRestants, and whether the second loop has returned. The places of zoneServer written
   are below `index`.
   */
  datatype Progress = Progress(index: nat, remaining: int, returned: bool)

  /** After the first loop. */
  function Start(flags: seq<bool>, zones: nat, block: nat): Progress
    requires |flags| > 0
  {
    Progress(block, if flags[0] then zones - block else zones, false)
  }

  /** An online server's turn: it writes the place `index`, and the loop returns if that was the last zone. */
  function ServeNext(zones: nat, p: Progress): Progress {
    var next := p.index + 1;
    Progress(next, if next == zones then p.remaining else p.remaining - 1, next == zones)
  }

  /** A walk over the servers from place j on. */
  function WalkFrom(flags: seq<bool>, zones: nat, j: nat, p: Progress): Progress
    decreases |flags| - j
  {
    if j >= |flags| || p.returned then p
    else WalkFrom(flags, zones, j + 1, if flags[j] then ServeNext(zones, p) else p)
  }

  /** The second loop is over. */
  predicate Over(p: Progress) {
    p.returned || p.remaining <= 0
  }

  /** The second loop after at most k walks. */
  function Walks(flags: seq<bool>, zones: nat, p: Progress, k: nat): Progress {
    if k == 0 then p
    else
      var q := Walks(flags, zones, p, k - 1);
      if Over(q) then q else WalkFrom(flags, zones, 0, q)
  }

  /** No place behind the table has been written. */
  predicate InTable(zones: nat, p: Progress) {
    p.index <= zones
  }

  ghost predicate EndsInTable(flags: seq<bool>, zones: nat, p: Progress) {
    exists k :: Over(Walks(flags, zones, p, k)) && InTable(zones, Walks(flags, zones, p, k))
  }

  lemma {:induction false} NobodyServed(flags: seq<bool>, zones: nat, j: nat, p: Progress)
    requires true !in flags
    ensures WalkFrom(flags, zones, j, p) == p
    decreases |flags| - j
  {
    if j < |flags| {
      assert flags[j] in flags;
      NobodyServed(flags, zones, j + 1, p);
    }
  }

  /** With no server online the loop goes round and round without an effect. */
  lemma {:induction false} NeverEnds(flags: seq<bool>, zones: nat, p: Progress, k: nat)
    requires true !in flags && !Over(p)
    ensures Walks(flags, zones, p, k) == p
  {
    if k > 0 {
      NeverEnds(flags, zones, p, k - 1);
      NobodyServed(flags, zones, 0, p);
    }
  }

  lemma {:induction false} IndexGrows(flags: seq<bool>, zones: nat, j: nat, p: Progress)
    ensures WalkFrom(flags, zones, j, p).index >= p.index
    decreases |flags| - j
  {
    if j < |flags| && !p.returned {
      IndexGrows(flags, zones, j + 1, if flags[j] then ServeNext(zones, p) else p);
    }
  }

  /** A walk that starts behind the last zone writes behind the table as soon as it meets an online server. */
  lemma {:induction false} WritesBehind(flags: seq<bool>, zones: nat, j: nat, p: Progress, online: nat)
    requires j <= online < |flags| && flags[online] && !p.returned && p.index >= zones
    ensures !InTable(zones, WalkFrom(flags, zones, j, p))
    decreases |flags| - j
  {
    if flags[j] {
      IndexGrows(flags, zones, j + 1, ServeNext(zones, p));
    } else {
      WritesBehind(flags, zones, j + 1, p, online);
    }
  }

  lemma {:induction false} LeavesTable(flags: seq<bool>, zones: nat, p: Progress, k: nat)
    requires true in flags && !Over(p) && p.index >= zones && k > 0
    ensures !InTable(zones, Walks(flags, zones, p, k))
  {
    if k == 1 {
      var online :| 0 <= online < |flags| && flags[online];
      WritesBehind(flags, zones, 0, p, online);
      assert Walks(flags, zones, p, 0) == p;
    } else {
      LeavesTable(flags, zones, p, k - 1);
      IndexGrows(flags, zones, 0, Walks(flags, zones, p, k - 1));
    }
  }

  /** On the way: zones are left, and zonesRestants counts at least them. */
  ghost predicate OnTheWay(zones: nat, p: Progress) {
    InTable(zones, p) && (p.returned || (p.index < zones && p.remaining >= zones - p.index))
  }

  lemma ServeStaysOnTheWay(zones: nat, p: Progress)
    requires OnTheWay(zones, p) && !p.returned
    ensures OnTheWay(zones, ServeNext(zones, p))
  {
  }

  lemma {:induction false} WalkStaysOnTheWay(flags: seq<bool>, zones: nat, j: nat, p: Progress)
    requires OnTheWay(zones, p)
    ensures var q := WalkFrom(flags, zones, j, p);
            OnTheWay(zones, q) && (q.returned || q.index >= p.index)
    decreases |flags| - j
  {
    if j < |flags| && !p.returned {
      ServeStaysOnTheWay(zones, p);
      WalkStaysOnTheWay(flags, zones, j + 1, if flags[j] then ServeNext(zones, p) else p);
    }
  }

  lemma {:induction false} WalkTakesAZone(flags: seq<bool>, zones: nat, j: nat, p: Progress, online: nat)
    requires OnTheWay(zones, p) && j <= online < |flags| && flags[online]
    ensures var q := WalkFrom(flags, zones, j, p);
            q.returned || q.index > p.index
    decreases |flags| - j
  {
    if !p.returned {
      ServeStaysOnTheWay(zones, p);
      if flags[j] {
        WalkStaysOnTheWay(flags, zones, j + 1, ServeNext(zones, p));
      } else {
        WalkTakesAZone(flags, zones, j + 1, p, online);
      }
    }
  }

  lemma {:induction false} WalksStayOnTheWay(flags: seq<bool>, zones: nat, p: Progress, k: nat)
    requires true in flags && OnTheWay(zones, p)
    ensures var q := Walks(flags, zones, p, k);
            OnTheWay(zones, q) && (q.returned || q.index >= p.index + k)
  {
    if k > 0 {
      var q := Walks(flags, zones, p, k - 1);
      var online :| 0 <= online < |flags| && flags[online];
      WalksStayOnTheWay(flags, zones, p, k - 1);
      WalkStaysOnTheWay(flags, zones, 0, q);
      WalkTakesAZone(flags, zones, 0, q, online);
    }
  }

  lemma EndsOnTheWay(flags: seq<bool>, zones: nat, p: Progress)
    requires true in flags && OnTheWay(zones, p)
    ensures EndsInTable(flags, zones, p)
  {
    WalksStayOnTheWay(flags, zones, p, zones);
  }

  /**
   The assignment ends without writing behind its table exactly when there is nothing to assign, or
   some server is online and, if that is not the front server, its block leaves zones for the others.
   */
  lemma EndsInTableExactlyWhen(flags: seq<bool>, zones: nat, n: nat)
    requires |flags| > 0 && n > 0
    ensures zones % n <= zones
    ensures EndsInTable(flags, zones, Start(flags, zones, zones % n))
       <==> zones == 0 || (true in flags && (flags[0] || zones % n < zones))
  {
    var p := Start(flags, zones, zones % n);
    if Over(p) {
      assert Walks(flags, zones, p, 0) == p && InTable(zones, p);
    } else if true !in flags {
      forall k ensures !Over(Walks(flags, zones, p, k)) {
        NeverEnds(flags, zones, p, k);
      }
    } else if flags[0] || zones % n < zones {
      EndsOnTheWay(flags, zones, p);
    } else {
      forall k ensures !(Over(Walks(flags, zones, p, k)) && InTable(zones, Walks(flags, zones, p, k))) {
        if k > 0 {
          LeavesTable(flags, zones, p, k);
        }
      }
    }
  }

  // ---------- the control server ----------

  datatype ZoneLoad = ZoneLoad(zone: nat, load: real)

  function Unloaded(zones: seq<nat>): seq<ZoneLoad> {
    seq(|zones|, i requires 0 <= i < |zones| => ZoneLoad(zones[i], 0.0))
  }

  lemma UnloadedMore(share: seq<nat>, zone: nat)
    ensures Unloaded(share + [zone]) == Unloaded(share) + [ZoneLoad(zone, 0.0)]
  {
  }

  class Server {
    const id: Id
    const online: bool
    var distribution: seq<ZoneLoad>
    var totalLoad: real

    constructor (id: Id, online: bool)
      ensures this.id == id && this.online == online && distribution == []
    {
      this.id, this.online, distribution, totalLoad := id, online, [], 0.0;
    }
  }

  class Control {
    const servers: seq<Server>
    const numberServers: nat
    const zoneServer: array<Server?>

    constructor (servers: seq<Server>, numberServers: nat, zones: nat)
      ensures this.servers == servers && this.numberServers == numberServers
      ensures zoneServer.Length == zones && fresh(zoneServer)
    {
      this.servers, this.numberServers := servers, numberServers;
      zoneServer := new Server?[zones](_ => null);
    }

    ghost predicate Ready() {
      && numberServers > 0 && |servers| > 0
      && forall i, j :: 0 <= i < j < |servers| ==> servers[i] != servers[j]
    }

    function Flags(): (flags: seq<bool>)
      ensures |flags| == |servers|
    {
      seq(|servers|, i requires 0 <= i < |servers| => servers[i].online)
    }

    lemma FlagOf(place: nat)
      requires place < |servers|
      ensures Flags()[place] == servers[place].online
    {
    }

    ghost function Block(): nat
      requires Ready()
    {
      zoneServer.Length % numberServers
    }

    /** Zone z is noted on its owner. */
    ghost predicate Noted(z: nat)
      requires Ready() && z < zoneServer.Length
      reads zoneServer
    {
      var owner := Owner(Flags(), Block(), z);
      owner < |servers| && (0 <= owner ==> zoneServer[z] == servers[owner])
    }

    /** The first k zones are noted on their owners. */
    ghost predicate Zoned(k: nat)
      requires Ready()
      reads zoneServer
    {
      k <= zoneServer.Length && forall z :: 0 <= z < k ==> Noted(z)
    }

    /** A server's distribution is its share of the first k zones, without a load. */
    ghost predicate Holds(i: nat, k: nat)
      requires Ready() && i < |servers|
      reads servers[i]
    {
      && servers[i].distribution == Unloaded(Share(Flags(), Block(), k, i))
      && (servers[i].distribution != [] ==> servers[i].totalLoad == 0.0)
    }

    ghost predicate Distributed(k: nat)
      requires Ready()
      reads servers
    {
      forall i :: 0 <= i < |servers| ==> Holds(i, k)
    }

    /** The orders for the first k zones are sent, and both tables agree with them. */
    ghost predicate Handed(sent: seq<Order>, k: nat)
      requires Ready()
      reads servers, zoneServer
    {
      sent == Orders(Flags(), Block(), k) && Zoned(k) && Distributed(k)
    }

    method NoteZone(place: nat, zone: nat)
      requires Ready() && Zoned(zone) && place < |servers| && zone < zoneServer.Length
      requires Owner(Flags(), Block(), zone) == place
      modifies zoneServer
      ensures Zoned(zone + 1)
    {
      zoneServer[zone] := servers[place];
      forall z | 0 <= z < zone ensures Noted(z) {
        assert old(Noted(z)) && zoneServer[z] == old(zoneServer[z]);
      }
    }

    method NoteShare(place: nat, zone: nat)
      requires Ready() && Distributed(zone) && place < |servers|
      requires Owner(Flags(), Block(), zone) == place
      modifies servers[place]
      ensures Distributed(zone + 1)
    {
      servers[place].distribution := servers[place].distribution + [ZoneLoad(zone, 0.0)];
      servers[place].totalLoad := 0.0;
      UnloadedMore(Share(Flags(), Block(), zone, place), zone);
      ghost var next := zone + 1;
      forall i | 0 <= i < |servers| ensures Holds(i, next) {
        assert old(Holds(i, zone));
      }
    }

    /** One assignment: the order is sent, the zone and its server are noted. */
    method Assign(place: nat, zone: nat, sent: seq<Order>) returns (sent': seq<Order>)
      requires Ready() && Handed(sent, zone) && place < |servers| && zone < zoneServer.Length
      requires Owner(Flags(), Block(), zone) == place
      modifies servers[place], zoneServer
      ensures Handed(sent', zone + 1)
    {
      sent' := sent + [Order(place, zone)];
      NoteZone(place, zone);
      NoteShare(place, zone);
    }

    /** A zone of the block is passed over while the front server is offline. */
    lemma PassedOver(sent: seq<Order>, zone: nat)
      requires Ready() && Handed(sent, zone) && zone < zoneServer.Length
      requires Owner(Flags(), Block(), zone) < 0
      ensures Handed(sent, zone + 1)
    {
      var next := zone + 1;
      forall i | 0 <= i < |servers| ensures Holds(i, next) {
        assert Holds(i, zone);
      }
    }

    /** A server's turn: it takes the zone if it is online. */
    method Serve(place: nat, zone: nat, remaining: int, sent: seq<Order>)
      returns (sent': seq<Order>, zone': nat, remaining': int, returned: bool)
      requires Ready() && Handed(sent, zone) && place < |servers| && zone < zoneServer.Length
      requires servers[place].online ==> Owner(Flags(), Block(), zone) == place
      modifies servers, zoneServer
      ensures Handed(sent', zone')
      ensures var p := Progress(zone, remaining, false);
              Progress(zone', remaining', returned)
              == if servers[place].online then ServeNext(zoneServer.Length, p) else p
    {
      sent', zone', remaining', returned := sent, zone, remaining, false;
      if servers[place].online {
        sent' := Assign(place, zone, sent);
        zone' := zone + 1;
        if zone' == zoneServer.Length {
          returned := true;
        } else {
          remaining' := remaining - 1;
        }
      }
    }

    /** A walk that started at zone `index` has come to place j of the list. */
    ghost predicate Walking(index: nat, remaining: int, j: nat, p: Progress)
      requires Ready()
    {
      && j <= |servers| && p.index == index + |Online(Flags(), j)|
      && (if p.returned then p.index == zoneServer.Length
          else p.index < zoneServer.Length && p.remaining + p.index == remaining + index)
      && WalkFrom(Flags(), zoneServer.Length, 0, Progress(index, remaining, false))
         == WalkFrom(Flags(), zoneServer.Length, j, p)
    }

    lemma WalksOn(index: nat, remaining: int, j: nat, p: Progress)
      requires Ready() && Walking(index, remaining, j, p) && j < |servers| && !p.returned
      requires RoundStarts(Flags(), Block(), index)
      ensures servers[j].online ==> Owner(Flags(), Block(), p.index) == j
      ensures Walking(index, remaining, j + 1, if servers[j].online then ServeNext(zoneServer.Length, p) else p)
    {
      if servers[j].online {
        TakesTurn(Flags(), Block(), index, j);
      }
    }

    lemma WalkedAll(index: nat, remaining: int, p: Progress)
      requires Ready() && Walking(index, remaining, |servers|, p) && !p.returned
      requires RoundStarts(Flags(), Block(), index)
      ensures p.index > index && RoundStarts(Flags(), Block(), p.index)
    {
      NextRoundStarts(Flags(), Block(), index);
    }

    /** One walk of the second loop over the list of servers. */
    method WalkServers(sent: seq<Order>, index: nat, remaining: int)
      returns (sent': seq<Order>, index': nat, remaining': int, returned: bool)
      requires Ready() && Handed(sent, index) && index < zoneServer.Length
      requires RoundStarts(Flags(), Block(), index)
      modifies servers, zoneServer
      ensures Handed(sent', index')
      ensures returned ==> index' == zoneServer.Length
      ensures !returned ==> index < index' < zoneServer.Length && RoundStarts(Flags(), Block(), index')
      ensures !returned ==> remaining' + index' == remaining + index
      ensures Progress(index', remaining', returned)
           == WalkFrom(Flags(), zoneServer.Length, 0, Progress(index, remaining, false))
    {
      sent', index', remaining', returned := sent, index, remaining, false;
      var j := 0;
      while j < |servers| && !returned
        invariant Handed(sent', index')
        invariant Walking(index, remaining, j, Progress(index', remaining', returned))
      {
        WalksOn(index, remaining, j, Progress(index', remaining', returned));
        sent', index', remaining', returned := Serve(j, index', remaining', sent');
        j := j + 1;
      }
      if !returned {
        WalkedAll(index, remaining, Progress(index', remaining', returned));
      }
    }

    /** The first loop: the block of the front server. */
    method GiveBlock(block: nat) returns (sent: seq<Order>, remaining: int)
      requires Ready() && block == Block() && block <= zoneServer.Length
      requires forall i :: 0 <= i < |servers| ==> servers[i].distribution == []
      modifies servers, zoneServer
      ensures Handed(sent, block)
      ensures Progress(block, remaining, false) == Start(Flags(), zoneServer.Length, block)
    {
      FlagOf(0);
      remaining := zoneServer.Length;
      sent := [];
      for i := 0 to block
        invariant Handed(sent, i)
        invariant remaining == zoneServer.Length - if servers[0].online then i else 0
      {
        if servers[0].online {
          sent := Assign(0, i, sent);
          remaining := remaining - 1;
        } else {
          PassedOver(sent, i);
        }
      }
    }

    /** Where the second loop stands after some walks. */
    ghost predicate Underway(p: Progress, walks: nat)
      requires Ready()
    {
      && p == Walks(Flags(), zoneServer.Length, Start(Flags(), zoneServer.Length, Block()), walks)
      && (if p.returned then p.index == zoneServer.Length
          else p.index <= zoneServer.Length && p.remaining >= zoneServer.Length - p.index
               && (p.remaining > 0 ==> p.index < zoneServer.Length && RoundStarts(Flags(), Block(), p.index)))
    }

    lemma AtStart(p: Progress)
      requires Ready() && p == Start(Flags(), zoneServer.Length, Block())
      requires zoneServer.Length == 0 || (true in Flags() && (Flags()[0] || Block() < zoneServer.Length))
      ensures Block() <= zoneServer.Length && Underway(p, 0)
    {
      if zoneServer.Length > 0 {
        SomeoneOnline(Flags());
      }
    }

    /**
     `zoneAssignment`, where it ends without writing behind the table, after as many walks as `walks` says.
     */
    method ZoneAssignment() returns (sent: seq<Order>, ghost walks: nat)
      requires Ready()
      requires zoneServer.Length == 0
            || (true in Flags() && (servers[0].online || Block() < zoneServer.Length))
      requires forall i :: 0 <= i < |servers| ==> servers[i].distribution == []
      modifies servers, zoneServer
      ensures Handed(sent, zoneServer.Length)
      ensures var p := Walks(Flags(), zoneServer.Length, Start(Flags(), zoneServer.Length, Block()), walks);
              Over(p) && p.index == zoneServer.Length
    {
      var index, remaining, returned := zoneServer.Length % numberServers, 0, false;
      sent, remaining := GiveBlock(index);
      walks := 0;
      AtStart(Progress(index, remaining, false));
      while remaining > 0 && !returned
        invariant Handed(sent, index)
        invariant Underway(Progress(index, remaining, returned), walks)
        decreases zoneServer.Length - index, !returned
      {
        sent, index, remaining, returned := WalkServers(sent, index, remaining);
        walks := walks + 1;
      }
    }
  }
}
