/**
 One load round: each game server builds its zone table from the orders it was sent, reports the load
 of every zone with a countdown, and the control server adds the loads up and clears one bit of a
 mask for each server whose last report it has processed. The reports of different servers may
 arrive in any interleaving; those of one server arrive in order.
 */
module LoadRound {
  import opened Ascending
  import opened ControlZones
  import opened Options

  // ---------- the game server ----------

  /** mServerId (-1 is None) and the zone table with the load of each zone. */
  datatype Table = Table(serverId: Option<Id>, zones: map<nat, real>)

  /** `SetZoneToServerRcvd::exec`: the first order fixes the server's number; orders for another number are dropped. */
  function AfterOrder(g: Table, zone: nat, id: Id): Table {
    var g' := if g.serverId.None? then g.(serverId := Some(id)) else g;
    if g'.serverId == Some(id) && zone !in g'.zones then g'.(zones := g'.zones[zone := 0.0]) else g'
  }

  function AfterOrders(g: Table, zones: seq<nat>, id: Id): Table
    decreases |zones|
  {
    if zones == [] then g else AfterOrders(AfterOrder(g, zones[0], id), zones[1..], id)
  }

  lemma {:induction false} OrdersAddUp(g: Table, zones: seq<nat>, id: Id)
    requires g.serverId.None? || g.serverId == Some(id)
    ensures AfterOrders(g, zones, id).zones.Keys == g.zones.Keys + set z | z in zones
    ensures AfterOrders(g, zones, id).serverId == if zones == [] then g.serverId else Some(id)
    decreases |zones|
  {
    if zones != [] {
      OrdersAddUp(AfterOrder(g, zones[0], id), zones[1..], id);
      assert forall z :: z in zones <==> z == zones[0] || z in zones[1..];
    }
  }

  /** Any row of orders, each for a zone and a server number. */
  function AfterAnyOrders(g: Table, orders: seq<(nat, Id)>): Table
    decreases |orders|
  {
    if orders == [] then g else AfterAnyOrders(AfterOrder(g, orders[0].0, orders[0].1), orders[1..])
  }

  /** The number a game server goes by: the one it has, or that of the first order. */
  function NumberAfter(g: Table, orders: seq<(nat, Id)>): Option<Id> {
    if g.serverId.Some? || orders == [] then g.serverId else Some(orders[0].1)
  }

  /** Only orders for the server's own number start zones; zones that run keep their load, new ones have none. */
  lemma {:induction false} OnlyOwnOrdersCount(g: Table, orders: seq<(nat, Id)>)
    ensures var g' := AfterAnyOrders(g, orders);
            && g'.serverId == NumberAfter(g, orders)
            && (forall z :: z in g'.zones <==> z in g.zones || OrderedFor(orders, z, NumberAfter(g, orders)))
            && (forall z :: z in g'.zones ==> g'.zones[z] == if z in g.zones then g.zones[z] else 0.0)
    decreases |orders|
  {
    if orders != [] {
      var g1 := AfterOrder(g, orders[0].0, orders[0].1);
      OnlyOwnOrdersCount(g1, orders[1..]);
      var number := NumberAfter(g, orders);
      forall z ensures OrderedFor(orders, z, number)
                  <==> (orders[0].0 == z && Some(orders[0].1) == number) || OrderedFor(orders[1..], z, number)
      {
        OneMoreOrdered(orders, z, number);
      }
    }
  }

  ghost predicate OrderedFor(orders: seq<(nat, Id)>, z: nat, number: Option<Id>) {
    exists i :: 0 <= i < |orders| && orders[i].0 == z && Some(orders[i].1) == number
  }

  lemma OneMoreOrdered(orders: seq<(nat, Id)>, z: nat, number: Option<Id>)
    requires orders != []
    ensures OrderedFor(orders, z, number)
       <==> (orders[0].0 == z && Some(orders[0].1) == number) || OrderedFor(orders[1..], z, number)
  {
    if i :| 0 <= i < |orders| && orders[i].0 == z && Some(orders[i].1) == number {
      assert i > 0 ==> orders[1..][i - 1] == orders[i];
    }
    if i :| 0 <= i < |orders[1..]| && orders[1..][i].0 == z && Some(orders[1..][i].1) == number {
      assert orders[i + 1] == orders[1..][i];
    }
  }

  /**
   Once all its orders are delivered, a game server's table holds exactly the zones the control server
   counts on it for.
   */
  lemma TableMatchesAssignment(flags: seq<bool>, block: nat, zones: nat, place: nat, id: Id)
    requires place < |flags|
    ensures var orders := Received(Orders(flags, block, zones), place);
            var g := AfterOrders(Table(None, map[]), orders, id);
            && (forall z: nat :: z in g.zones <==> z < zones && Owner(flags, block, z) == place)
            && (orders != [] ==> g.serverId == Some(id))
  {
    var orders := Received(Orders(flags, block, zones), place);
    OrdersBringShares(flags, block, zones, place);
    ShareIsShare(flags, block, zones, place);
    OrdersAddUp(Table(None, map[]), orders, id);
    var g := AfterOrders(Table(None, map[]), orders, id);
    assert forall z: nat :: z in g.zones <==> z in g.zones.Keys;
  }

  datatype Report = Report(id: Id, zone: nat, load: real, remaining: int)

  /** The reports of one round: every zone of the table once, in ascending order, with a countdown to 0. */
  ghost predicate ReportsOf(g: Table, rs: seq<Report>) {
    && |rs| == |g.zones|
    && (forall z: nat :: z in g.zones ==> exists i :: 0 <= i < |rs| && rs[i].zone == z)
    && (forall i :: 0 <= i < |rs| ==> rs[i].zone in g.zones && rs[i].load == g.zones[rs[i].zone])
    && (forall i, j :: 0 <= i < j < |rs| ==> rs[i].zone < rs[j].zone)
    && Countdown(rs)
  }

  ghost predicate Countdown(rs: seq<Report>) {
    forall i :: 0 <= i < |rs| ==> rs[i].remaining == |rs| - 1 - i && rs[i].id == rs[0].id
  }

  class GameServer {
    var serverId: Option<Id>
    var zones: map<nat, real>

    ghost function View(): Table
      reads this
    {
      Table(serverId, zones)
    }

    constructor ()
      ensures View() == Table(None, map[])
    {
      serverId, zones := None, map[];
    }

    method StartZone(zone: nat)
      modifies `zones
      ensures zones == if zone in old(zones) then old(zones) else old(zones)[zone := 0.0]
    {
      if zone !in zones {
        zones := zones[zone := 0.0];
      }
    }

    method SetZoneToServer(zone: nat, id: Id)
      modifies this
      ensures View() == AfterOrder(old(View()), zone, id)
    {
      if serverId.None? {
        serverId := Some(id);
      }
      if serverId == Some(id) {
        StartZone(zone);
      }
    }

    method SendZoneLoads() returns (rs: seq<Report>)
      ensures ReportsOf(View(), rs)
      ensures forall i :: 0 <= i < |rs| && serverId.Some? ==> rs[i].id == serverId.value
    {
      var id := if serverId.Some? then serverId.value else 0xFFFF_FFFF;
      var keys := AscendingKeys(zones.Keys);
      var remaining := |keys|;
      rs := [];
      for i := 0 to |keys|
        invariant remaining == |keys| - i && |rs| == i
        invariant forall k :: 0 <= k < i ==>
                    keys[k] in zones && rs[k] == Report(id, keys[k], zones[keys[k]], |keys| - 1 - k)
      {
        remaining := remaining - 1;
        assert keys[i] in zones.Keys;
        rs := rs + [Report(id, keys[i], zones[keys[i]], remaining)];
      }
      OneReportPerZone(View(), id, keys, rs);
    }
  }

  lemma OneReportPerZone(g: Table, id: Id, keys: seq<nat>, rs: seq<Report>)
    requires IsAscending(keys, g.zones.Keys) && |rs| == |keys|
    requires forall k :: 0 <= k < |keys| ==>
               keys[k] in g.zones && rs[k] == Report(id, keys[k], g.zones[keys[k]], |keys| - 1 - k)
    ensures ReportsOf(g, rs)
  {
  }

  // ---------- the mask ----------

  predicate Bit(mask: bv32, i: bv32)
    requires i < 32
  {
    (mask >> i) & 1 == 1
  }

  /** ~0 >> (32 - n): the low n bits, one for each of n game servers. */
  function InitialMask(n: bv32): bv32
    requires 1 <= n <= 32
  {
    0xFFFF_FFFF >> (32 - n)
  }

  function ClearBit(mask: bv32, i: bv32): bv32
    requires i < 32
  {
    mask & !(1 << i)
  }

  lemma InitialMaskBits(n: bv32, i: bv32)
    requires 1 <= n <= 32 && i < 32
    ensures Bit(InitialMask(n), i) <==> i < n
  {
  }

  lemma ClearBitBits(mask: bv32, i: bv32, j: bv32)
    requires i < 32 && j < 32
    ensures Bit(ClearBit(mask, i), j) <==> Bit(mask, j) && j != i
  {
  }

  lemma ZeroMask(mask: bv32)
    ensures mask == 0 <==> forall i: bv32 :: i < 32 ==> !Bit(mask, i)
  {
    if forall i: bv32 :: i < 32 ==> !Bit(mask, i) {
      assert !Bit(mask, 0) && !Bit(mask, 1) && !Bit(mask, 2) && !Bit(mask, 3);
      assert !Bit(mask, 4) && !Bit(mask, 5) && !Bit(mask, 6) && !Bit(mask, 7);
      assert !Bit(mask, 8) && !Bit(mask, 9) && !Bit(mask, 10) && !Bit(mask, 11);
      assert !Bit(mask, 12) && !Bit(mask, 13) && !Bit(mask, 14) && !Bit(mask, 15);
      assert !Bit(mask, 16) && !Bit(mask, 17) && !Bit(mask, 18) && !Bit(mask, 19);
      assert !Bit(mask, 20) && !Bit(mask, 21) && !Bit(mask, 22) && !Bit(mask, 23);
      assert !Bit(mask, 24) && !Bit(mask, 25) && !Bit(mask, 26) && !Bit(mask, 27);
      assert !Bit(mask, 28) && !Bit(mask, 29) && !Bit(mask, 30) && !Bit(mask, 31);
    }
  }

  // ---------- the control server's books ----------

  datatype Sheet = Sheet(id: Id, dist: seq<ZoneLoad>, total: real)

  datatype Books = Books(sheets: seq<Sheet>, mask: bv32)

  function WithLoad(dist: seq<ZoneLoad>, zone: nat, load: real): seq<ZoneLoad> {
    seq(|dist|, i requires 0 <= i < |dist| => if dist[i].zone == zone then ZoneLoad(zone, load) else dist[i])
  }

  /** How many of the first n entries of a distribution are about the zone. */
  function HitsIn(dist: seq<ZoneLoad>, n: nat, zone: nat): nat
    requires n <= |dist|
  {
    if n == 0 then 0 else HitsIn(dist, n - 1, zone) + if dist[n - 1].zone == zone then 1 else 0
  }

  function Hits(dist: seq<ZoneLoad>, zone: nat): nat {
    HitsIn(dist, |dist|, zone)
  }

  /** The load, once for each of those entries. */
  function TallyIn(dist: seq<ZoneLoad>, n: nat, zone: nat, load: real): real
    requires n <= |dist|
  {
    if n == 0 then 0.0 else TallyIn(dist, n - 1, zone, load) + if dist[n - 1].zone == zone then load else 0.0
  }

  lemma {:induction false} TallyOfHits(dist: seq<ZoneLoad>, n: nat, zone: nat, load: real)
    requires n <= |dist|
    ensures HitsIn(dist, n, zone) == 0 ==> TallyIn(dist, n, zone, load) == 0.0
    ensures HitsIn(dist, n, zone) == 1 ==> TallyIn(dist, n, zone, load) == load
  {
    if n > 0 {
      TallyOfHits(dist, n - 1, zone, load);
    }
  }

  function NotedOn(s: Sheet, r: Report): Sheet {
    Sheet(s.id, WithLoad(s.dist, r.zone, r.load), s.total + TallyIn(s.dist, |s.dist|, r.zone, r.load))
  }

  /** The numbers of the listed servers are bits of the mask. */
  predicate Numbered(b: Books) {
    forall i :: 0 <= i < |b.sheets| ==> b.sheets[i].id < 32
  }

  /** `ServerLoadRcvd::exec`: the server's sheet takes the load; the last report clears the server's bit. */
  function AfterReport(b: Books, r: Report): Books
    requires Numbered(b)
  {
    var sheets := seq(|b.sheets|, i requires 0 <= i < |b.sheets| =>
                        if b.sheets[i].id == r.id then NotedOn(b.sheets[i], r) else b.sheets[i]);
    var known := exists i :: 0 <= i < |b.sheets| && b.sheets[i].id == r.id;
    Books(sheets, if known && r.remaining == 0 then ClearBit(b.mask, r.id) else b.mask)
  }

  lemma {:induction false} HitsStay(dist: seq<ZoneLoad>, n: nat, zone: nat, load: real, z: nat)
    requires n <= |dist|
    ensures HitsIn(WithLoad(dist, zone, load), n, z) == HitsIn(dist, n, z)
  {
    if n > 0 {
      HitsStay(dist, n - 1, zone, load, z);
    }
  }

  // ---------- interleavings ----------

  /** How many of the first k messages come from the server at place p. */
  function Sent(src: seq<nat>, k: nat, p: nat): nat
    requires k <= |src|
  {
    if k == 0 then 0 else Sent(src, k - 1, p) + if src[k - 1] == p then 1 else 0
  }

  /** The k-th message is the next report of its sender. */
  ghost predicate InOrder(src: seq<nat>, reps: seq<seq<Report>>, k: nat)
    requires k < |src|
  {
    src[k] < |reps| && Sent(src, k, src[k]) < |reps[src[k]]|
  }

  ghost function Message(src: seq<nat>, reps: seq<seq<Report>>, k: nat): Report
    requires k < |src| && InOrder(src, reps, k)
  {
    reps[src[k]][Sent(src, k, src[k])]
  }

  /** The books at the start of a round, and the reports that the servers have to make. */
  ghost predicate RoundOf(b: Books, reps: seq<seq<Report>>) {
    && |reps| == |b.sheets|
    && (forall p, q :: 0 <= p < q < |reps| ==> b.sheets[p].id != b.sheets[q].id)
    && (forall p :: 0 <= p < |reps| ==> Reporting(b.sheets[p], reps[p]))
  }

  /** A server that starts the round with no load, and reports each time about one zone of its sheet. */
  ghost predicate Reporting(s: Sheet, rs: seq<Report>) {
    && s.id < 32 && s.total == 0.0 && Countdown(rs)
    && forall i :: 0 <= i < |rs| ==> rs[i].id == s.id && Hits(s.dist, rs[i].zone) == 1
  }

  /** The books before and after each message; src names the senders. */
  ghost predicate IsRound(bs: seq<Books>, reps: seq<seq<Report>>, src: seq<nat>) {
    && |bs| == |src| + 1 && RoundOf(bs[0], reps)
    && forall k {:trigger Delivered(bs, reps, src, k)} :: 0 <= k < |src| ==> Delivered(bs, reps, src, k)
  }

  ghost predicate Delivered(bs: seq<Books>, reps: seq<seq<Report>>, src: seq<nat>, k: nat) {
    && k < |src| && k + 1 < |bs| && InOrder(src, reps, k)
    && Numbered(bs[k]) && bs[k + 1] == AfterReport(bs[k], Message(src, reps, k))
  }

  function LoadSum(rs: seq<Report>, c: nat): real
    requires c <= |rs|
  {
    if c == 0 then 0.0 else LoadSum(rs, c - 1) + rs[c - 1].load
  }

  /** The load of the latest of the first c reports about the zone, or the one it had. */
  function LatestLoad(rs: seq<Report>, c: nat, zone: nat, first: real): real
    requires c <= |rs|
  {
    if c == 0 then first else if rs[c - 1].zone == zone then rs[c - 1].load else LatestLoad(rs, c - 1, zone, first)
  }

  /** The entries are about the same zones as before, each with the latest load reported. */
  ghost predicate Reported(dist0: seq<ZoneLoad>, dist: seq<ZoneLoad>, rs: seq<Report>, c: nat)
    requires c <= |rs|
  {
    && |dist| == |dist0|
    && forall j :: 0 <= j < |dist| ==>
         dist[j] == ZoneLoad(dist0[j].zone, LatestLoad(rs, c, dist0[j].zone, dist0[j].load))
  }

  /** A server's sheet after it has sent its first c reports. */
  ghost predicate SheetAfter(s0: Sheet, s: Sheet, rs: seq<Report>, c: nat) {
    && c <= |rs| && s.id == s0.id && s.total == LoadSum(rs, c) && Reported(s0.dist, s.dist, rs, c)
    && forall z :: Hits(s.dist, z) == Hits(s0.dist, z)
  }

  lemma SheetTakesReport(s0: Sheet, s: Sheet, rs: seq<Report>, c: nat)
    requires Reporting(s0, rs) && SheetAfter(s0, s, rs, c) && c < |rs|
    ensures SheetAfter(s0, NotedOn(s, rs[c]), rs, c + 1)
  {
    TallyOfHits(s.dist, |s.dist|, rs[c].zone, rs[c].load);
    forall z ensures Hits(NotedOn(s, rs[c]).dist, z) == Hits(s0.dist, z) {
      HitsStay(s.dist, |s.dist|, rs[c].zone, rs[c].load, z);
    }
  }

  /** The sheets when the server at each place p has sent its first counts[p] reports. */
  ghost predicate SheetsAt(b0: Books, b: Books, reps: seq<seq<Report>>, counts: seq<nat>)
    requires |reps| == |b0.sheets| == |counts|
  {
    && |b.sheets| == |b0.sheets|
    && forall p :: 0 <= p < |reps| ==> SheetAfter(b0.sheets[p], b.sheets[p], reps[p], counts[p])
  }

  lemma SheetsTakeReport(b0: Books, b: Books, reps: seq<seq<Report>>, counts: seq<nat>, q: nat)
    requires RoundOf(b0, reps) && |counts| == |reps| && SheetsAt(b0, b, reps, counts)
    requires q < |reps| && counts[q] < |reps[q]|
    ensures Numbered(b) && reps[q][counts[q]].id == b0.sheets[q].id
    ensures SheetsAt(b0, AfterReport(b, reps[q][counts[q]]), reps, counts[q := counts[q] + 1])
  {
    assert Reporting(b0.sheets[q], reps[q]);
    var r := reps[q][counts[q]];
    forall p | 0 <= p < |reps|
      ensures SheetAfter(b0.sheets[p], AfterReport(b, r).sheets[p], reps[p], counts[q := counts[q] + 1][p])
    {
      assert SheetAfter(b0.sheets[p], b.sheets[p], reps[p], counts[p]);
      if p == q {
        SheetTakesReport(b0.sheets[p], b.sheets[p], reps[p], counts[p]);
      } else {
        assert b0.sheets[p].id != b0.sheets[q].id;
      }
    }
  }

  function Counts(src: seq<nat>, k: nat, n: nat): seq<nat>
    requires k <= |src|
  {
    seq(n, p requires 0 <= p < n => Sent(src, k, p))
  }

  /** In every interleaving, each total is the sum of the loads reported so far. */
  lemma {:induction false} TotalsAddUp(bs: seq<Books>, reps: seq<seq<Report>>, src: seq<nat>, k: nat)
    requires IsRound(bs, reps, src) && k <= |src|
    ensures SheetsAt(bs[0], bs[k], reps, Counts(src, k, |reps|))
  {
    if k > 0 {
      var j := k - 1;
      var before := Counts(src, j, |reps|);
      TotalsAddUp(bs, reps, src, j);
      assert Delivered(bs, reps, src, j);
      SheetsTakeReport(bs[0], bs[j], reps, before, src[j]);
      assert before[src[j] := before[src[j]] + 1] == Counts(src, k, |reps|);
    }
  }

  /** The server with number i has made its last report. */
  ghost predicate Done(b: Books, reps: seq<seq<Report>>, counts: seq<nat>, i: bv32)
    requires |reps| == |b.sheets| == |counts|
  {
    exists p :: 0 <= p < |reps| && b.sheets[p].id == i && |reps[p]| > 0 && counts[p] == |reps[p]|
  }

  /** A bit of the mask is down exactly if it was down before or its server is done. */
  ghost predicate MaskAt(b0: Books, mask: bv32, reps: seq<seq<Report>>, counts: seq<nat>)
    requires |reps| == |b0.sheets| == |counts|
  {
    forall i: bv32 :: i < 32 ==> (Bit(mask, i) <==> Bit(b0.mask, i) && !Done(b0, reps, counts, i))
  }

  lemma MaskTakesReport(b0: Books, b: Books, reps: seq<seq<Report>>, counts: seq<nat>, q: nat)
    requires RoundOf(b0, reps) && |counts| == |reps|
    requires SheetsAt(b0, b, reps, counts) && MaskAt(b0, b.mask, reps, counts)
    requires q < |reps| && counts[q] < |reps[q]|
    ensures Numbered(b) && reps[q][counts[q]].id == b0.sheets[q].id
    ensures MaskAt(b0, AfterReport(b, reps[q][counts[q]]).mask, reps, counts[q := counts[q] + 1])
  {
    assert Reporting(b0.sheets[q], reps[q]);
    var r, counts', id := reps[q][counts[q]], counts[q := counts[q] + 1], b0.sheets[q].id;
    var mask' := AfterReport(b, r).mask;
    assert SheetAfter(b0.sheets[q], b.sheets[q], reps[q], counts[q]);
    assert mask' == if counts'[q] == |reps[q]| then ClearBit(b.mask, id) else b.mask;
    forall i: bv32 | i < 32 ensures Bit(mask', i) <==> Bit(b0.mask, i) && !Done(b0, reps, counts', i) {
      ClearBitBits(b.mask, id, i);
      DoneStep(b0, reps, counts, q, i);
    }
  }

  lemma DoneStep(b0: Books, reps: seq<seq<Report>>, counts: seq<nat>, q: nat, i: bv32)
    requires RoundOf(b0, reps) && |counts| == |reps| && q < |reps| && counts[q] < |reps[q]|
    ensures Done(b0, reps, counts[q := counts[q] + 1], i)
       <==> Done(b0, reps, counts, i) || (i == b0.sheets[q].id && counts[q] + 1 == |reps[q]|)
  {
  }

  lemma {:induction false} MaskFollows(bs: seq<Books>, reps: seq<seq<Report>>, src: seq<nat>, k: nat)
    requires IsRound(bs, reps, src) && k <= |src|
    ensures MaskAt(bs[0], bs[k].mask, reps, Counts(src, k, |reps|))
  {
    if k > 0 {
      var j := k - 1;
      var before := Counts(src, j, |reps|);
      MaskFollows(bs, reps, src, j);
      TotalsAddUp(bs, reps, src, j);
      assert Delivered(bs, reps, src, j);
      MaskTakesReport(bs[0], bs[j], reps, before, src[j]);
      assert before[src[j] := before[src[j]] + 1] == Counts(src, k, |reps|);
    } else {
      NothingSent(bs[0], reps, src);
    }
  }

  lemma NothingSent(b: Books, reps: seq<seq<Report>>, src: seq<nat>)
    requires RoundOf(b, reps)
    ensures MaskAt(b, b.mask, reps, Counts(src, 0, |reps|))
  {
  }

  /**
   At any point of any interleaving the mask is zero exactly if, for each of the n numbers, there is a
   server with that number and it has made its last report. A number without a server, or a server
   without a zone, keeps the mask up for ever.
   */
  lemma MaskZeroExactlyWhen(bs: seq<Books>, reps: seq<seq<Report>>, src: seq<nat>, k: nat, n: bv32)
    requires IsRound(bs, reps, src) && k <= |src|
    requires 1 <= n <= 32 && bs[0].mask == InitialMask(n)
    ensures bs[k].mask == 0 <==> forall i: bv32 :: i < n ==> Done(bs[0], reps, Counts(src, k, |reps|), i)
  {
    MaskFollows(bs, reps, src, k);
    ZeroMask(bs[k].mask);
    var counts := Counts(src, k, |reps|);
    forall i: bv32 | i < 32
      ensures Bit(bs[k].mask, i) <==> i < n && !Done(bs[0], reps, counts, i)
    {
      InitialMaskBits(n, i);
    }
  }

  // ---------- from the assignment to the round ----------

  lemma {:induction false} HitsOfShare(share: seq<nat>, n: nat, z: nat)
    requires n <= |share| && forall a, b :: 0 <= a < b < |share| ==> share[a] < share[b]
    ensures HitsIn(Unloaded(share), n, z) == if z in share[..n] then 1 else 0
  {
    if n > 0 {
      HitsOfShare(share, n - 1, z);
      assert share[..n] == share[..n - 1] + [share[n - 1]];
    }
  }

  lemma TableKeys(flags: seq<bool>, block: nat, zones: nat, place: nat, id: Id)
    requires place < |flags|
    ensures AfterOrders(Table(None, map[]), Received(Orders(flags, block, zones), place), id).zones.Keys
         == set z | z in Share(flags, block, zones, place)
  {
    OrdersBringShares(flags, block, zones, place);
    OrdersAddUp(Table(None, map[]), Share(flags, block, zones, place), id);
  }

  lemma ShareAscends(flags: seq<bool>, block: nat, zones: nat, place: nat)
    requires place < |flags|
    ensures var share := Share(flags, block, zones, place);
            forall a, b :: 0 <= a < b < |share| ==> share[a] < share[b]
  {
    ShareIsShare(flags, block, zones, place);
  }

  lemma ShareIsReported(share: seq<nat>, id: Id, g: Table, rs: seq<Report>)
    requires forall a, b :: 0 <= a < b < |share| ==> share[a] < share[b]
    requires id < 32 && ReportsOf(g, rs) && forall i :: 0 <= i < |rs| ==> rs[i].id == id
    requires g.zones.Keys == set z | z in share
    ensures Reporting(Sheet(id, Unloaded(share), 0.0), rs)
    ensures |rs| > 0 <==> share != []
  {
    assert share[..|share|] == share;
    forall i | 0 <= i < |rs| ensures Hits(Unloaded(share), rs[i].zone) == 1 {
      assert rs[i].zone in g.zones.Keys;
      HitsOfShare(share, |share|, rs[i].zone);
    }
    if share != [] {
      assert share[0] in g.zones.Keys;
    }
  }

  /**
   What the orders set up is what the round needs: the reports of a game server that has received its
   orders, whatever its zones' loads are by now, each meet one entry of the sheet of that server.
   */
  lemma AssignedServersReport(flags: seq<bool>, block: nat, zones: nat, place: nat, id: Id, g: Table, rs: seq<Report>)
    requires place < |flags| && id < 32
    requires g.zones.Keys
          == AfterOrders(Table(None, map[]), Received(Orders(flags, block, zones), place), id).zones.Keys
    requires ReportsOf(g, rs) && forall i :: 0 <= i < |rs| ==> rs[i].id == id
    ensures Reporting(Sheet(id, Unloaded(Share(flags, block, zones, place)), 0.0), rs)
    ensures |rs| > 0 <==> Share(flags, block, zones, place) != []
  {
    TableKeys(flags, block, zones, place, id);
    ShareAscends(flags, block, zones, place);
    ShareIsReported(Share(flags, block, zones, place), id, g, rs);
  }

  lemma BlockLeavesARound(zones: nat, n: nat)
    requires 0 < n <= zones
    ensures zones % n + n <= zones
  {
  }

  lemma ServedInFirstRound(flags: seq<bool>, block: nat, zones: nat, p: nat)
    requires p < |flags| && block + |flags| <= zones && forall i :: 0 <= i < |flags| ==> flags[i]
    ensures Share(flags, block, zones, p) != []
  {
    AllOnline(flags, |flags|);
    ShareIsShare(flags, block, zones, p);
    assert Turn(p, |flags|) == p && Owner(flags, block, block + p) == p;
    assert block + p in Share(flags, block, zones, p);
  }

  lemma BlockTakesAll(flags: seq<bool>, zones: nat, p: nat)
    requires 0 < p < |flags| && flags[0]
    ensures Share(flags, zones, zones, p) == []
  {
    ShareIsShare(flags, zones, zones, p);
    var share := Share(flags, zones, zones, p);
    assert forall z: nat :: z < zones ==> Owner(flags, zones, z) == 0;
    FirstIsMember(share);
  }

  lemma FirstIsMember(s: seq<nat>)
    ensures s == [] || s[0] in s
  {
  }

  /** With every server online, each one gets a zone to report exactly when there are as many zones as servers. */
  lemma EveryServerServedExactlyWhen(flags: seq<bool>, zones: nat)
    requires |flags| > 0 && forall i :: 0 <= i < |flags| ==> flags[i]
    ensures (forall p :: 0 <= p < |flags| ==> Share(flags, zones % |flags|, zones, p) != []) <==> |flags| <= zones
  {
    var n := |flags|;
    if n <= zones {
      BlockLeavesARound(zones, n);
      forall p | 0 <= p < n ensures Share(flags, zones % n, zones, p) != [] {
        ServedInFirstRound(flags, zones % n, zones, p);
      }
    } else if n > 1 {
      assert zones % n == zones;
      BlockTakesAll(flags, zones, n - 1);
    } else {
      assert zones % n == zones == 0 && Share(flags, 0, 0, 0) == [];
    }
  }

  lemma {:induction false} AllOnline(flags: seq<bool>, k: nat)
    requires k <= |flags| && forall i :: 0 <= i < |flags| ==> flags[i]
    ensures |Online(flags, k)| == k && forall i :: 0 <= i < k ==> Online(flags, k)[i] == i
  {
    if k > 0 {
      AllOnline(flags, k - 1);
    }
  }

  // ---------- from start-up to the end of the round ----------

  /** One server after start-up: its table holds its ordered zones, its sheet its share, and it makes its reports. */
  ghost predicate SetUp(flags: seq<bool>, block: nat, zones: nat, place: nat, s: Sheet, g: Table, rs: seq<Report>) {
    && place < |flags| && s.id < 32
    && s == Sheet(s.id, Unloaded(Share(flags, block, zones, place)), 0.0)
    && g.zones.Keys == AfterOrders(Table(None, map[]), Received(Orders(flags, block, zones), place), s.id).zones.Keys
    && ReportsOf(g, rs) && forall i :: 0 <= i < |rs| ==> rs[i].id == s.id
  }

  /** Every listed server is set up, online or not; the numbers are distinct but may have gaps. */
  ghost predicate AllSetUp(flags: seq<bool>, block: nat, zones: nat, b: Books, gs: seq<Table>, reps: seq<seq<Report>>) {
    && |flags| == |b.sheets| == |gs| == |reps| > 0
    && (forall p, q :: 0 <= p < q < |b.sheets| ==> b.sheets[p].id != b.sheets[q].id)
    && (forall p :: 0 <= p < |flags| ==> SetUp(flags, block, zones, p, b.sheets[p], gs[p], reps[p]))
  }

  /** Messages delivered one after another, in order for each server, until every report is delivered. */
  ghost predicate AllDelivered(bs: seq<Books>, reps: seq<seq<Report>>, src: seq<nat>) {
    && |bs| == |src| + 1
    && (forall k {:trigger Delivered(bs, reps, src, k)} :: 0 <= k < |src| ==> Delivered(bs, reps, src, k))
    && (forall p :: 0 <= p < |reps| ==> Sent(src, |src|, p) == |reps[p]|)
  }

  /** The number is that of a server with a zone. */
  ghost predicate Serving(flags: seq<bool>, block: nat, zones: nat, b: Books, i: bv32)
    requires |flags| == |b.sheets|
  {
    exists p :: 0 <= p < |flags| && b.sheets[p].id == i && Share(flags, block, zones, p) != []
  }

  lemma SetUpReports(flags: seq<bool>, block: nat, zones: nat, place: nat, s: Sheet, g: Table, rs: seq<Report>)
    requires SetUp(flags, block, zones, place, s, g, rs)
    ensures Reporting(s, rs)
    ensures |rs| > 0 <==> Share(flags, block, zones, place) != []
  {
    AssignedServersReport(flags, block, zones, place, s.id, g, rs);
  }

  lemma AllSetUpIsRound(flags: seq<bool>, block: nat, zones: nat, b: Books, gs: seq<Table>, reps: seq<seq<Report>>)
    requires AllSetUp(flags, block, zones, b, gs, reps)
    ensures RoundOf(b, reps)
    ensures forall p :: 0 <= p < |reps| ==> (|reps[p]| > 0 <==> Share(flags, block, zones, p) != [])
  {
    forall p | 0 <= p < |reps|
      ensures Reporting(b.sheets[p], reps[p])
      ensures |reps[p]| > 0 <==> Share(flags, block, zones, p) != []
    {
      SetUpReports(flags, block, zones, p, b.sheets[p], gs[p], reps[p]);
    }
  }

  /** When all is delivered a number is done exactly if it is that of a server with a zone. */
  lemma DoneIsServing(flags: seq<bool>, block: nat, zones: nat, b: Books, reps: seq<seq<Report>>, counts: seq<nat>,
                      i: bv32)
    requires |flags| == |reps| == |b.sheets| == |counts|
    requires forall p :: 0 <= p < |reps| ==> counts[p] == |reps[p]|
    requires forall p :: 0 <= p < |reps| ==> (|reps[p]| > 0 <==> Share(flags, block, zones, p) != [])
    ensures Done(b, reps, counts, i) <==> Serving(flags, block, zones, b, i)
  {
    if Serving(flags, block, zones, b, i) {
      var p :| 0 <= p < |flags| && b.sheets[p].id == i && Share(flags, block, zones, p) != [];
      assert |reps[p]| > 0;
    }
  }

  lemma {:induction false} LatestIs(rs: seq<Report>, c: nat, zone: nat, first: real, i: nat)
    requires i < c <= |rs| && rs[i].zone == zone
    requires forall j :: 0 <= j < |rs| && rs[j].zone == zone ==> rs[j].load == rs[i].load
    ensures LatestLoad(rs, c, zone, first) == rs[i].load
  {
    if rs[c - 1].zone != zone {
      LatestIs(rs, c - 1, zone, first, i);
    }
  }

  /** A sheet holds the load that each zone of the server's table had when it reported. */
  ghost predicate HoldsLoads(s: Sheet, g: Table) {
    forall j :: 0 <= j < |s.dist| ==> s.dist[j].zone in g.zones && s.dist[j].load == g.zones[s.dist[j].zone]
  }

  lemma SetUpHoldsLoads(flags: seq<bool>, block: nat, zones: nat, place: nat, s0: Sheet, s: Sheet, g: Table,
                        rs: seq<Report>)
    requires SetUp(flags, block, zones, place, s0, g, rs) && SheetAfter(s0, s, rs, |rs|)
    ensures HoldsLoads(s, g)
  {
    var share := Share(flags, block, zones, place);
    TableKeys(flags, block, zones, place, s0.id);
    forall j | 0 <= j < |s.dist| ensures s.dist[j].zone in g.zones && s.dist[j].load == g.zones[s.dist[j].zone] {
      var zone := s0.dist[j].zone;
      assert share[j] in share && zone in g.zones.Keys;
      var i :| 0 <= i < |rs| && rs[i].zone == zone;
      LatestIs(rs, |rs|, zone, s0.dist[j].load, i);
    }
  }

  lemma FinalLoads(flags: seq<bool>, block: nat, zones: nat, gs: seq<Table>, reps: seq<seq<Report>>, bs: seq<Books>,
                   src: seq<nat>)
    requires AllDelivered(bs, reps, src) && AllSetUp(flags, block, zones, bs[0], gs, reps)
    ensures |bs[|src|].sheets| == |reps| && forall p :: 0 <= p < |reps| ==> HoldsLoads(bs[|src|].sheets[p], gs[p])
  {
    AllSetUpIsRound(flags, block, zones, bs[0], gs, reps);
    TotalsAddUp(bs, reps, src, |src|);
    forall p | 0 <= p < |reps| ensures HoldsLoads(bs[|src|].sheets[p], gs[p]) {
      assert SheetAfter(bs[0].sheets[p], bs[|src|].sheets[p], reps[p], Counts(src, |src|, |reps|)[p]);
      SetUpHoldsLoads(flags, block, zones, p, bs[0].sheets[p], bs[|src|].sheets[p], gs[p], reps[p]);
    }
  }

  lemma FinalTotals(bs: seq<Books>, reps: seq<seq<Report>>, src: seq<nat>)
    requires AllDelivered(bs, reps, src) && RoundOf(bs[0], reps)
    ensures |bs[|src|].sheets| == |reps|
    ensures forall p :: 0 <= p < |reps| ==> bs[|src|].sheets[p].total == LoadSum(reps[p], |reps[p]|)
  {
    TotalsAddUp(bs, reps, src, |src|);
    forall p | 0 <= p < |reps| ensures bs[|src|].sheets[p].total == LoadSum(reps[p], |reps[p]|) {
      assert SheetAfter(bs[0].sheets[p], bs[|src|].sheets[p], reps[p], Counts(src, |src|, |reps|)[p]);
    }
  }

  /**
   From start-up to the end of the first round, whichever servers are online and whatever numbers they
   have: for all loads and interleavings of the reports, each sheet holds the loads of that server's
   zones, each total is their sum, and the mask is zero exactly when every number below n is that of a
   server with a zone.
   */
  lemma FirstRoundEnds(flags: seq<bool>, block: nat, zones: nat, gs: seq<Table>, reps: seq<seq<Report>>, bs: seq<Books>,
                       src: seq<nat>, n: bv32)
    requires AllDelivered(bs, reps, src) && AllSetUp(flags, block, zones, bs[0], gs, reps)
    requires 1 <= n <= 32 && bs[0].mask == InitialMask(n)
    ensures |bs[|src|].sheets| == |reps|
    ensures forall p :: 0 <= p < |reps| ==> bs[|src|].sheets[p].total == LoadSum(reps[p], |reps[p]|)
    ensures forall p :: 0 <= p < |reps| ==> HoldsLoads(bs[|src|].sheets[p], gs[p])
    ensures bs[|src|].mask == 0 <==> forall i: bv32 :: i < n ==> Serving(flags, block, zones, bs[0], i)
  {
    FinalLoads(flags, block, zones, gs, reps, bs, src);
    AllSetUpIsRound(flags, block, zones, bs[0], gs, reps);
    FinalTotals(bs, reps, src);
    MaskZeroExactlyWhen(bs, reps, src, |src|, n);
    var counts := Counts(src, |src|, |reps|);
    forall i: bv32 | i < n ensures Done(bs[0], reps, counts, i) <==> Serving(flags, block, zones, bs[0], i) {
      DoneIsServing(flags, block, zones, bs[0], reps, counts, i);
    }
  }

  ghost predicate NumberGiven(b: Books, i: bv32) {
    exists p :: 0 <= p < |b.sheets| && b.sheets[p].id == i
  }

  /** With every server online and the numbers below n given to them, this comes down to as many zones as servers. */
  lemma AllServingExactlyWhen(flags: seq<bool>, zones: nat, b: Books, n: bv32)
    requires |flags| == |b.sheets| > 0 && forall p :: 0 <= p < |flags| ==> flags[p]
    requires forall p, q :: 0 <= p < q < |b.sheets| ==> b.sheets[p].id != b.sheets[q].id
    requires forall p :: 0 <= p < |b.sheets| ==> b.sheets[p].id < n
    requires forall i: bv32 :: i < n ==> NumberGiven(b, i)
    ensures (forall i: bv32 :: i < n ==> Serving(flags, zones % |flags|, zones, b, i)) <==> |flags| <= zones
  {
    EveryServerServedExactlyWhen(flags, zones);
    if forall i: bv32 :: i < n ==> Serving(flags, zones % |flags|, zones, b, i) {
      forall p | 0 <= p < |flags| ensures Share(flags, zones % |flags|, zones, p) != [] {
        assert Serving(flags, zones % |flags|, zones, b, b.sheets[p].id);
      }
    }
    if |flags| <= zones {
      forall i: bv32 | i < n ensures Serving(flags, zones % |flags|, zones, b, i) {
        assert NumberGiven(b, i);
        var p :| 0 <= p < |b.sheets| && b.sheets[p].id == i;
        assert Share(flags, zones % |flags|, zones, p) != [];
      }
    }
  }

  /** A distribution whose first i entries have been compared with the report. */
  function Partly(dist: seq<ZoneLoad>, i: nat, r: Report): (now: seq<ZoneLoad>)
    requires i <= |dist|
    ensures |now| == |dist|
  {
    if i == 0 then dist
    else
      var before := Partly(dist, i - 1, r);
      if before[i - 1].zone == r.zone then before[i - 1 := ZoneLoad(r.zone, r.load)] else before
  }

  lemma {:induction false} PartlyIs(dist: seq<ZoneLoad>, i: nat, r: Report)
    requires i <= |dist|
    ensures forall k :: 0 <= k < |dist| ==>
              Partly(dist, i, r)[k] == if k < i && dist[k].zone == r.zone then ZoneLoad(r.zone, r.load) else dist[k]
  {
    if i > 0 {
      PartlyIs(dist, i - 1, r);
    }
  }

  // ---------- the control server object ----------

  class LoadControl {
    const servers: seq<Server>
    var mask: bv32

    constructor (servers: seq<Server>, n: bv32)
      requires 1 <= n <= 32
      ensures this.servers == servers && mask == InitialMask(n)
    {
      this.servers, mask := servers, 0xFFFF_FFFF >> (32 - n);
    }

    ghost predicate Ready() {
      && (forall i, j :: 0 <= i < j < |servers| ==> servers[i] != servers[j] && servers[i].id != servers[j].id)
      && (forall i :: 0 <= i < |servers| ==> servers[i].id < 32)
    }

    ghost function SheetOf(p: nat): Sheet
      requires p < |servers|
      reads servers
    {
      Sheet(servers[p].id, servers[p].distribution, servers[p].totalLoad)
    }

    ghost function View(): Books
      reads this, servers
    {
      Books(seq(|servers|, p requires 0 <= p < |servers| reads servers => SheetOf(p)), mask)
    }

    /** The loop over one server's distribution. */
    method Note(p: nat, r: Report)
      requires Ready() && p < |servers|
      modifies servers[p]
      ensures SheetOf(p) == NotedOn(old(SheetOf(p)), r)
      ensures forall q :: 0 <= q < |servers| && q != p ==> SheetOf(q) == old(SheetOf(q))
    {
      var server := servers[p];
      ghost var dist := server.distribution;
      var i := 0;
      while i < |server.distribution|
        invariant 0 <= i <= |dist| && server.distribution == Partly(dist, i, r)
        invariant server.totalLoad == old(server.totalLoad) + TallyIn(dist, i, r.zone, r.load)
      {
        PartlyIs(dist, i, r);
        if server.distribution[i].zone == r.zone {
          server.distribution := server.distribution[i := ZoneLoad(r.zone, r.load)];
          server.totalLoad := server.totalLoad + r.load;
        }
        i := i + 1;
      }
      PartlyIs(dist, i, r);
      assert Partly(dist, i, r) == WithLoad(dist, r.zone, r.load);
    }

    /** The sheets of the first servers of the list have taken the report; the others are as they were. */
    twostate predicate NotedUpTo(r: Report, it: nat)
      reads servers
    {
      && (forall p :: 0 <= p < |servers| && p < it ==>
            SheetOf(p) == if servers[p].id == r.id then NotedOn(old(SheetOf(p)), r) else old(SheetOf(p)))
      && (forall p :: it <= p < |servers| ==> SheetOf(p) == old(SheetOf(p)))
    }

    ghost predicate Lists(id: Id, it: nat) {
      exists p :: 0 <= p < it && p < |servers| && servers[p].id == id
    }

    twostate lemma BooksTakeReport(r: Report)
      requires Ready() && NotedUpTo(r, |servers|)
      requires mask == if Lists(r.id, |servers|) && r.remaining == 0 then ClearBit(old(mask), r.id) else old(mask)
      ensures Numbered(old(View())) && View() == AfterReport(old(View()), r)
    {
      var was := old(View());
      assert View().sheets == AfterReport(was, r).sheets;
      assert forall p :: 0 <= p < |servers| ==> was.sheets[p].id == servers[p].id;
    }

    method ServerLoad(r: Report)
      requires Ready()
      modifies this, servers
      ensures Numbered(old(View())) && View() == AfterReport(old(View()), r)
    {
      var it := 0;
      while it < |servers|
        invariant 0 <= it <= |servers| && mask == old(mask) && NotedUpTo(r, it)
        invariant r.remaining == 0 ==> !Lists(r.id, it)
      {
        if servers[it].id == r.id {
          Note(it, r);
          if r.remaining == 0 {
            mask := mask & !(1 << r.id);
            assert NotedUpTo(r, |servers|) && Lists(r.id, |servers|);
            break;
          }
        }
        it := it + 1;
      }
      BooksTakeReport(r);
    }
  }
}
