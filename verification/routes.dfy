/** Whole journeys of a data request: how many hops, in which directions, and whether it arrives. */
module Routes {
  import opened Base
  import opened Domains
  import opened EndpointTables
  import opened NodeTables
  import opened Routing

  lemma FoundIsEntry(t: seq<Peer>, id: nat)
    ensures FindChild(t, id).Some? ==> FindChild(t, id).value in t
  {
  }

  lemma TargetIsDirect(t: Tables, global: bool, tid: nat)
    ensures Target(t, global, tid).To? ==>
              var p := Target(t, global, tid).peer; t.father == Some(p) || p in t.brothers || p in t.children
  {
    FoundIsEntry(t.brothers, tid);
    FoundIsEntry(t.children, tid);
  }

  /** Whatever the tables hold, a node that passes a letter on has room on its router list and grows it. */
  lemma PassedGrows(net: Net, n: nat, m: Letter)
    requires n in net.nodes && OnRequest(net, n, m).Passed?
    ensures var o := OnRequest(net, n, m); |m.router| < net.ttl && |m.router| < |o.letter.router| && o.letter.to == m.to
  {
  }

  /** The nodes a letter is passed to after it arrived at `n`, whatever becomes of it in the end. */
  function Journey(net: Net, n: nat, m: Letter): seq<nat>
    requires n in net.nodes
    decreases if net.ttl > |m.router| then net.ttl - |m.router| else 0
  {
    var o := OnRequest(net, n, m);
    if !o.Passed? then []
    else
      PassedGrows(net, n, m);
      [o.next] + if o.next in net.nodes then Journey(net, o.next, o.letter) else []
  }

  /** Over any tables, even inconsistent ones, a letter is passed on no more often than its router list
      has room left for. */
  lemma {:induction false} HopsBounded(net: Net, n: nat, m: Letter)
    requires n in net.nodes
    ensures |Journey(net, n, m)| <= if net.ttl > |m.router| then net.ttl - |m.router| else 0
    decreases if net.ttl > |m.router| then net.ttl - |m.router| else 0
  {
    var o := OnRequest(net, n, m);
    if o.Passed? {
      PassedGrows(net, n, m);
      if o.next in net.nodes {
        HopsBounded(net, o.next, o.letter);
      }
    }
  }

  /** A nested network without global routers: the tables tell the peers' own ids and masks, a child's
      mask is smaller than the node's, no node's own id lies in a child's domain. */
  ghost predicate Nested(net: Net) {
    && net.global == {}
    && forall n {:trigger NodeNested(net, n, net.nodes[n])} :: n in net.nodes ==> NodeNested(net, n, net.nodes[n])
  }

  ghost predicate NodeNested(net: Net, n: nat, t: Tables) {
    && t.Ok() && t.self.id == n && t.self.mask < MASKS
    && (t.father.Some? ==> Known(net, t.father.value) && !t.self.Holds(t.father.value.id))
    && (forall p :: p in t.brothers ==> Known(net, p))
    && (forall p :: p in t.children ==> Known(net, p) && p.mask < t.self.mask && !p.Holds(n))
  }

  ghost predicate Known(net: Net, p: Peer) { p.id in net.nodes && net.nodes[p.id].self == p }

  const MASKS: nat := 31

  /** Grows with every hop: first the mask while the domain does not hold the target, then, once it
      does, downwards. */
  function Rank(p: Peer, tid: nat): int {
    if p.Holds(tid) then 2 * MASKS - p.mask else p.mask
  }

  datatype Direction = Up | Across | Down

  /** The three ways to pass a letter on, and what is known of the nodes at both ends. */
  ghost predicate Goes(net: Net, n: nat, next: nat, tid: nat, d: Direction)
    requires n in net.nodes && next in net.nodes
  {
    var p, q := net.nodes[n].self, net.nodes[next].self;
    match d
    case Up => !p.Holds(tid) && net.nodes[n].father == Some(q)
    case Across => !p.Holds(tid) && q.Holds(tid) && q in net.nodes[n].brothers
    case Down => p.Holds(tid) && q.Holds(tid) && q in net.nodes[n].children
  }

  lemma TargetGoes(net: Net, n: nat, tid: nat) returns (d: Direction)
    requires Nested(net) && n in net.nodes && tid != n && Target(net.nodes[n], false, tid).To?
    ensures var next := Target(net.nodes[n], false, tid).peer.id;
            next in net.nodes && Goes(net, n, next, tid, d)
  {
    var t, p := net.nodes[n], Target(net.nodes[n], false, tid).peer;
    assert NodeNested(net, n, t);
    FoundIsEntry(t.brothers, tid);
    FoundIsEntry(t.children, tid);
    var across := t.IsBrotherId(tid) && !t.IsParentId(tid) && FindChild(t.brothers, tid) == Some(p) && p.Holds(tid);
    d := if t.father == Some(p) && !t.self.Holds(tid) && !across then Up
         else if t.self.Holds(tid) then Down else Across;
  }

  /** Every hop goes up, across or down; the retry goes up. */
  lemma HopGoes(net: Net, n: nat, m: Letter) returns (d: Direction)
    requires Nested(net) && n in net.nodes && OnRequest(net, n, m).Passed?
    ensures OnRequest(net, n, m).next in net.nodes && Goes(net, n, OnRequest(net, n, m).next, m.to, d)
  {
    var t := net.nodes[n];
    assert NodeNested(net, n, t);
    var first := SendMsg(net, n, m.to);
    if Retries(t, Stamped(m, n, first.stamped), first) {
      d := Up;
    } else {
      d := TargetGoes(net, n, m.to);
    }
  }

  lemma HopRanks(net: Net, n: nat, next: nat, tid: nat, d: Direction)
    requires Nested(net) && n in net.nodes && next in net.nodes && Goes(net, n, next, tid, d)
    ensures Rank(net.nodes[n].self, tid) < Rank(net.nodes[next].self, tid)
  {
    assert NodeNested(net, n, net.nodes[n]) && NodeNested(net, next, net.nodes[next]);
  }

  /** Up any number of times, across at most once, then only down. */
  predicate Shape(ds: seq<Direction>)
    decreases ds
  {
    ds == [] || if ds[0].Up? then Shape(ds[1..]) else AllDown(ds[1..])
  }

  predicate AllDown(ds: seq<Direction>)
    decreases ds
  {
    ds == [] || (ds[0].Down? && AllDown(ds[1..]))
  }

  /** A walk from `n` whose hops go the ways `ds` and rise in rank. */
  ghost predicate Walk(net: Net, n: nat, walk: seq<nat>, tid: nat, ds: seq<Direction>)
    requires n in net.nodes
    decreases walk
  {
    |walk| == |ds| &&
    (walk != [] ==>
       && walk[0] in net.nodes && Goes(net, n, walk[0], tid, ds[0])
       && Rank(net.nodes[n].self, tid) < Rank(net.nodes[walk[0]].self, tid)
       && Walk(net, walk[0], walk[1..], tid, ds[1..]))
  }

  lemma {:induction false} WalkDown(net: Net, n: nat, walk: seq<nat>, tid: nat, ds: seq<Direction>)
    requires n in net.nodes && Walk(net, n, walk, tid, ds) && net.nodes[n].self.Holds(tid)
    ensures AllDown(ds)
    decreases walk
  {
    if walk != [] {
      WalkDown(net, walk[0], walk[1..], tid, ds[1..]);
    }
  }

  lemma {:induction false} WalkShape(net: Net, n: nat, walk: seq<nat>, tid: nat, ds: seq<Direction>)
    requires n in net.nodes && Walk(net, n, walk, tid, ds)
    ensures Shape(ds)
    decreases walk
  {
    if walk != [] {
      if ds[0].Up? {
        WalkShape(net, walk[0], walk[1..], tid, ds[1..]);
      } else {
        WalkDown(net, walk[0], walk[1..], tid, ds[1..]);
      }
    }
  }

  lemma {:induction false} WalkRises(net: Net, n: nat, walk: seq<nat>, tid: nat, ds: seq<Direction>, i: nat)
    requires n in net.nodes && Walk(net, n, walk, tid, ds) && i < |walk|
    ensures walk[i] in net.nodes && Rank(net.nodes[n].self, tid) < Rank(net.nodes[walk[i]].self, tid)
    decreases walk
  {
    if i > 0 {
      WalkRises(net, walk[0], walk[1..], tid, ds[1..], i - 1);
    }
  }

  /** No node is visited twice. */
  lemma {:induction false} WalkNeverReturns(net: Net, n: nat, walk: seq<nat>, tid: nat, ds: seq<Direction>, i: nat,
                                            j: nat)
    requires n in net.nodes && Walk(net, n, walk, tid, ds) && i < j <= |walk|
    ensures ([n] + walk)[i] != ([n] + walk)[j]
    decreases walk
  {
    if i == 0 {
      WalkRises(net, n, walk, tid, ds, j - 1);
    } else {
      WalkNeverReturns(net, walk[0], walk[1..], tid, ds[1..], i - 1, j - 1);
      assert [walk[0]] + walk[1..] == walk;
    }
  }

  lemma {:induction false} JourneyWalks(net: Net, n: nat, m: Letter) returns (ds: seq<Direction>)
    requires Nested(net) && n in net.nodes
    ensures Walk(net, n, Journey(net, n, m), m.to, ds)
    decreases if net.ttl > |m.router| then net.ttl - |m.router| else 0
  {
    var o := OnRequest(net, n, m);
    ds := [];
    if o.Passed? {
      PassedGrows(net, n, m);
      var d := HopGoes(net, n, m);
      HopRanks(net, n, o.next, m.to, d);
      var rest := JourneyWalks(net, o.next, o.letter);
      ds := [d] + rest;
      assert Journey(net, n, m)[1..] == Journey(net, o.next, o.letter) && ds[1..] == rest;
    }
  }

  /** A node sends data of its own: the hops from there. */
  function Voyage(net: Net, from: nat, to: nat): seq<nat>
    requires from in net.nodes
  {
    var s := SendMsg(net, from, to);
    if s.code != Success || s.target.None? then []
    else
      var next := s.target.value.id;
      [next] + if next in net.nodes then Journey(net, next, Letter(to, from, [from])) else []
  }

  /** Whatever the tables hold, data of a node's own takes no more hops than the limit says, except that
      the first is taken whatever the limit: it is exceeded exactly by that hop where the limit is zero. */
  lemma VoyageBounded(net: Net, from: nat, to: nat)
    requires from in net.nodes
    ensures |Voyage(net, from, to)| <= if net.ttl > 1 then net.ttl else 1
    ensures var s := SendMsg(net, from, to);
            |Voyage(net, from, to)| > net.ttl <==> net.ttl == 0 && s.code == Success && s.target.Some?
  {
    var s := SendMsg(net, from, to);
    if s.code == Success && s.target.Some? && s.target.value.id in net.nodes {
      HopsBounded(net, s.target.value.id, Letter(to, from, [from]));
    }
  }

  /** In a nested network every voyage goes up, then across at most once, then down, and visits no node twice. */
  lemma VoyageShape(net: Net, from: nat, to: nat) returns (ds: seq<Direction>)
    requires Nested(net) && from in net.nodes
    ensures Walk(net, from, Voyage(net, from, to), to, ds) && Shape(ds)
    ensures var v := [from] + Voyage(net, from, to); forall i, j :: 0 <= i < j < |v| ==> v[i] != v[j]
  {
    var v, s := Voyage(net, from, to), SendMsg(net, from, to);
    ds := [];
    if v != [] {
      var next := s.target.value.id;
      var d := TargetGoes(net, from, to);
      HopRanks(net, from, next, to, d);
      var rest := JourneyWalks(net, next, Letter(to, from, [from]));
      ds := [d] + rest;
      assert v[1..] == Journey(net, next, Letter(to, from, [from])) && ds[1..] == rest;
    }
    WalkShape(net, from, v, to, ds);
    forall i, j | 0 <= i < j < |[from] + v| ensures ([from] + v)[i] != ([from] + v)[j] {
      WalkNeverReturns(net, from, v, to, ds, i, j);
    }
  }

  /** Every node knows a way towards every other: a child inside its own domain, a father or brother outside. */
  ghost predicate Complete(net: Net) {
    forall n, tid {:trigger HasWay(net.nodes[n], tid)} ::
      n in net.nodes && tid in net.nodes && tid != n ==> HasWay(net.nodes[n], tid)
  }

  ghost predicate HasWay(t: Tables, tid: nat) {
    if t.self.Holds(tid) then exists p :: p in t.children && p.Holds(tid)
    else t.father.Some? || exists p :: p in t.brothers && p.Holds(tid)
  }

  /** The tree links work: those between father and child, and those between brothers that have no father. */
  ghost predicate TreeLinksUp(net: Net) {
    forall n, p: Peer {:trigger TreeLinkUp(net, n, p)} :: n in net.nodes ==> TreeLinkUp(net, n, p)
  }

  ghost predicate TreeLinkUp(net: Net, n: nat, p: Peer)
    requires n in net.nodes
  {
    var t := net.nodes[n];
    t.father == Some(p) || p in t.children || (p in t.brothers && t.father.None?) ==> net.links(n, p.id).Working?
  }

  /** How far the rank can still rise. */
  function Headroom(p: Peer, tid: nat): nat {
    if Rank(p, tid) < 2 * MASKS then 2 * MASKS - Rank(p, tid) else 0
  }

  /** One hop on the way: where it leads, and by how much it grows the router list. */
  datatype Hop = Hop(next: nat, stamps: nat)

  /** The hop from `n` towards `tid`: over the link to the target if that works, else through the father;
      a link that breaks under the first attempt leaves its stamp. */
  function HopOf(net: Net, n: nat, tid: nat): Option<Hop>
    requires n in net.nodes
  {
    var t := net.nodes[n];
    match Target(t, n in net.global, tid)
    case Refused(code) => None
    case To(p) =>
      match net.links(n, p.id)
      case Working => Some(Hop(p.id, 1))
      case Missing => if t.father.Some? then Some(Hop(t.father.value.id, 1)) else None
      case Broken => if t.father.Some? then Some(Hop(t.father.value.id, 2)) else None
  }

  /** The hops from `n` to `tid`, whatever the limit on them. */
  function Way(net: Net, n: nat, tid: nat): seq<Hop>
    requires n in net.nodes
    decreases Headroom(net.nodes[n].self, tid)
  {
    var h := HopOf(net, n, tid);
    if tid == n || h.None? then []
    else if h.value.next in net.nodes &&
            Headroom(net.nodes[h.value.next].self, tid) < Headroom(net.nodes[n].self, tid) then
      [h.value] + Way(net, h.value.next, tid)
    else [h.value]
  }

  /** How much the router list has grown when the last hop is to be taken. */
  function StampsBefore(way: seq<Hop>): nat
    decreases way
  {
    if |way| <= 1 then 0 else way[0].stamps + StampsBefore(way[1..])
  }

  /** Where a letter stops, and what becomes of it there. */
  function Ending(net: Net, n: nat, m: Letter): (nat, Outcome)
    requires n in net.nodes
    decreases if net.ttl > |m.router| then net.ttl - |m.router| else 0
  {
    var o := OnRequest(net, n, m);
    if !o.Passed? then (n, o)
    else if o.next !in net.nodes then (o.next, Dropped)
    else
      PassedGrows(net, n, m);
      Ending(net, o.next, o.letter)
  }

  lemma TargetExists(net: Net, n: nat, tid: nat)
    requires Nested(net) && Complete(net) && n in net.nodes && tid in net.nodes && tid != n
    ensures Target(net.nodes[n], false, tid).To?
  {
    var t := net.nodes[n];
    assert NodeNested(net, n, t) && HasWay(t, tid);
    FindIsScan(t.children, tid);
    FindIsScan(t.brothers, tid);
  }

  /** A letter that came down from its father is for the node's own domain, so that a failure there is
      never one the father could help with. */
  ghost predicate Welcome(net: Net, n: nat, m: Letter)
    requires n in net.nodes
  {
    net.nodes[n].self.Holds(m.to) || !net.nodes[n].IsParentId(m.src)
  }

  /** After any hop that is so. */
  lemma HopWelcomes(net: Net, n: nat, next: nat, m: Letter, d: Direction)
    requires Nested(net) && n in net.nodes && next in net.nodes && m.src == n && Goes(net, n, next, m.to, d)
    ensures Welcome(net, next, m)
  {
    assert NodeNested(net, n, net.nodes[n]) && NodeNested(net, next, net.nodes[next]);
  }

  /** Towards a target that is not over a tree link: a brother, and there is a father. */
  lemma OnlyBrothersFail(net: Net, n: nat, tid: nat)
    requires Nested(net) && Complete(net) && TreeLinksUp(net) && n in net.nodes && tid in net.nodes && tid != n
    ensures Target(net.nodes[n], false, tid).To?
    ensures var t, p := net.nodes[n], Target(net.nodes[n], false, tid).peer;
            !net.links(n, p.id).Working? ==>
              && p in t.brothers && t.father.Some? && t.father != Some(p) && t.IsBrotherId(tid) && !t.self.Holds(tid)
              && !t.IsParentId(p.id) && net.links(n, t.father.value.id).Working?
  {
    TargetExists(net, n, tid);
    var t, p := net.nodes[n], Target(net.nodes[n], false, tid).peer;
    assert NodeNested(net, n, t) && TreeLinkUp(net, n, p);
    TargetIsDirect(t, false, tid);
    if t.father.Some? {
      assert TreeLinkUp(net, n, t.father.value);
    }
    FindIsScan(t.brothers, tid);
    FindIsScan(t.children, tid);
  }

  /** What a node does with a letter, told on the hop. */
  lemma HopTaken(net: Net, n: nat, m: Letter) returns (h: Hop, m': Letter)
    requires Nested(net) && Complete(net) && TreeLinksUp(net) && n in net.nodes && m.to in net.nodes && m.to != n
    requires Welcome(net, n, m)
    ensures HopOf(net, n, m.to) == Some(h) && m'.src == n && m'.to == m.to && |m'.router| == |m.router| + h.stamps
    ensures OnRequest(net, n, m) == if |m.router| >= net.ttl then Expired else Passed(h.next, m')
  {
    OnlyBrothersFail(net, n, m.to);
    var t, p := net.nodes[n], Target(net.nodes[n], false, m.to).peer;
    assert NodeNested(net, n, t);
    h := HopOf(net, n, m.to).value;
    var m1 := m.(src := n, router := m.router + [n]);
    m' := if h.stamps == 2 then m1.(router := m1.router + [n]) else m1;
  }

  /** The hop goes up, across or down, and the rank rises. */
  lemma HopRises(net: Net, n: nat, tid: nat) returns (h: Hop, d: Direction)
    requires Nested(net) && Complete(net) && TreeLinksUp(net) && n in net.nodes && tid in net.nodes && tid != n
    ensures HopOf(net, n, tid) == Some(h) && 1 <= h.stamps <= 2
    ensures h.next in net.nodes && Goes(net, n, h.next, tid, d)
    ensures Headroom(net.nodes[h.next].self, tid) < Headroom(net.nodes[n].self, tid)
  {
    OnlyBrothersFail(net, n, tid);
    var t, p := net.nodes[n], Target(net.nodes[n], false, tid).peer;
    assert NodeNested(net, n, t);
    h := HopOf(net, n, tid).value;
    if net.links(n, p.id).Working? {
      d := TargetGoes(net, n, tid);
    } else {
      d := Up;
    }
    HopRanks(net, n, h.next, tid, d);
    assert NodeNested(net, h.next, net.nodes[h.next]);
  }

  /** One hop on the way, as long as the limit allows it. */
  lemma NextHop(net: Net, n: nat, m: Letter) returns (h: Hop, m': Letter)
    requires Nested(net) && Complete(net) && TreeLinksUp(net) && n in net.nodes && m.to in net.nodes && m.to != n
    requires Welcome(net, n, m)
    ensures h.next in net.nodes && Way(net, n, m.to) == [h] + Way(net, h.next, m.to) && h.stamps >= 1
    ensures Headroom(net.nodes[h.next].self, m.to) < Headroom(net.nodes[n].self, m.to)
    ensures m'.src == n && m'.to == m.to && |m'.router| == |m.router| + h.stamps && Welcome(net, h.next, m')
    ensures OnRequest(net, n, m) == if |m.router| >= net.ttl then Expired else Passed(h.next, m')
  {
    var d;
    h, d := HopRises(net, n, m.to);
    h, m' := HopTaken(net, n, m);
    HopWelcomes(net, n, h.next, m', d);
  }

  /** In a complete nested network whose tree links work, a letter reaches its target exactly when its
      router list is still within the limit at the last hop; otherwise it expires on the way. Links between
      brothers may be down: each such hop is retried through the father, and may stamp the list twice. */
  lemma {:induction false} Arrives(net: Net, n: nat, m: Letter)
    requires Nested(net) && Complete(net) && TreeLinksUp(net) && n in net.nodes && m.to in net.nodes
    requires Welcome(net, n, m)
    ensures var w := Way(net, n, m.to);
            && (w == [] <==> n == m.to) && (w != [] ==> w[|w| - 1].next == m.to)
            && if w == [] || |m.router| + StampsBefore(w) < net.ttl then Ending(net, n, m) == (m.to, Delivered)
               else Ending(net, n, m).1 == Expired
    decreases Headroom(net.nodes[n].self, m.to)
  {
    if n != m.to {
      var h, m' := NextHop(net, n, m);
      Arrives(net, h.next, m');
      assert Way(net, n, m.to)[1..] == Way(net, h.next, m.to);
    }
  }

  /** The list grows by one or two a hop. */
  lemma {:induction false} StampsBounded(net: Net, n: nat, tid: nat)
    requires Nested(net) && Complete(net) && TreeLinksUp(net) && n in net.nodes && tid in net.nodes && tid != n
    ensures var w := Way(net, n, tid); w != [] && |w| - 1 <= StampsBefore(w) <= 2 * (|w| - 1)
    decreases Headroom(net.nodes[n].self, tid)
  {
    var h, d := HopRises(net, n, tid);
    assert Way(net, n, tid)[1..] == Way(net, h.next, tid);
    if h.next != tid {
      StampsBounded(net, h.next, tid);
    }
  }

  /** Data of a node's own. The node has no retry, so the link to its target must work; only a link to a
      brother of a node with a father may not. Then the data arrives exactly when the way is one hop or the
      router list is within the limit at the last one. */
  lemma VoyageArrives(net: Net, from: nat, to: nat) returns (p: Peer)
    requires Nested(net) && Complete(net) && TreeLinksUp(net) && from in net.nodes && to in net.nodes && from != to
    ensures Target(net.nodes[from], false, to) == To(p)
    ensures SendMsg(net, from, to).code == Success <==> net.links(from, p.id).Working?
    ensures !net.links(from, p.id).Working? ==>
              Voyage(net, from, to) == [] && p in net.nodes[from].brothers && net.nodes[from].father.Some?
    ensures net.links(from, p.id).Working? ==>
              var m, w := Letter(to, from, [from]), Way(net, from, to);
              && p.id in net.nodes && w != [] && w[0] == Hop(p.id, 1) && w[|w| - 1].next == to
              && if |w| == 1 || StampsBefore(w) < net.ttl then Ending(net, p.id, m) == (to, Delivered)
                 else Ending(net, p.id, m).1 == Expired
  {
    OnlyBrothersFail(net, from, to);
    p := Target(net.nodes[from], false, to).peer;
    if net.links(from, p.id).Working? {
      var h, d := HopRises(net, from, to);
      var m, w := Letter(to, from, [from]), Way(net, from, to);
      HopWelcomes(net, from, h.next, m, d);
      Arrives(net, h.next, m);
      assert w[1..] == Way(net, h.next, to);
      assert |w| > 1 ==> w[|w| - 1] == w[1..][|w| - 2];
    }
  }

  /** The first picture in the source: a father and two children that do not know each other. */
  function Family(ttl: nat): Net {
    var f, c, d := Peer(4, 2), Peer(5, 0), Peer(6, 0);
    Net(map[4 := Tables(f, None, [], [c, d]), 5 := Tables(c, Some(f), [], []), 6 := Tables(d, Some(f), [], [])],
        {}, (a, b) => Working, ttl)
  }

  lemma FamilyBounds()
    ensures Lo(4, 2) == 4 && Hi(4, 2) == 7 && Lo(5, 0) == Hi(5, 0) == 5 && Lo(6, 0) == Hi(6, 0) == 6
  {
  }

  lemma FamilyTargets(ttl: nat)
    ensures Target(Family(ttl).nodes[5], false, 6) == To(Peer(4, 2))
    ensures Target(Family(ttl).nodes[4], false, 6) == To(Peer(6, 0))
  {
    FamilyBounds();
    FindIsScan([], 6);
    FamilyOrdered();
    FindIsScan([Peer(5, 0), Peer(6, 0)], 6);
  }

  lemma FamilyOrdered()
    ensures Ordered([Peer(5, 0), Peer(6, 0)])
  {
    assert [Peer(5, 0), Peer(6, 0)][1..] == [Peer(6, 0)];
  }

  lemma FamilyParts(ttl: nat)
    ensures var net := Family(ttl);
            NodeNested(net, 4, net.nodes[4]) && NodeNested(net, 5, net.nodes[5]) && NodeNested(net, 6, net.nodes[6])
  {
    FamilyBounds();
    FamilyOrdered();
  }

  lemma FamilyNested(ttl: nat)
    ensures Nested(Family(ttl)) && Complete(Family(ttl)) && TreeLinksUp(Family(ttl))
  {
    var net := Family(ttl);
    FamilyBounds();
    FamilyParts(ttl);
    assert Peer(5, 0) in net.nodes[4].children && Peer(6, 0) in net.nodes[4].children;
    assert HasWay(net.nodes[4], 5) && HasWay(net.nodes[4], 6);
  }

  /** It is a complete nested network whose links work; the way between the children goes up once and down
      once. */
  lemma ThroughTheFather(ttl: nat)
    ensures var net := Family(ttl);
            Nested(net) && Complete(net) && TreeLinksUp(net) && Way(net, 5, 6) == [Hop(4, 1), Hop(6, 1)]
  {
    var net := Family(ttl);
    FamilyNested(ttl);
    FamilyBounds();
    FamilyTargets(ttl);
    assert Way(net, 4, 6) == [Hop(6, 1)] + Way(net, 6, 6);
  }

  /** With a limit of no hops at all, one hop is taken. */
  lemma OneHopForFree()
    ensures Voyage(Family(0), 5, 6) == [4]
  {
    FamilyBounds();
    FamilyTargets(0);
  }

  /** A father, its children 10 and 12, which are brothers with a broken link between them, and the child 11
      of 10. */
  function Estranged(ttl: nat): Net {
    var f, c, d, g := Peer(8, 3), Peer(10, 1), Peer(12, 1), Peer(11, 0);
    Net(map[8 := Tables(f, None, [], [c, d]), 10 := Tables(c, Some(f), [d], [g]),
            12 := Tables(d, Some(f), [c], []), 11 := Tables(g, Some(c), [], [])],
        {}, (a, b) => if (a == 10 && b == 12) || (a == 12 && b == 10) then Broken else Working, ttl)
  }

  lemma EstrangedBounds()
    ensures Lo(8, 3) == 8 && Hi(8, 3) == 15 && Lo(10, 1) == 10 && Hi(10, 1) == 11
    ensures Lo(12, 1) == 12 && Hi(12, 1) == 13 && Lo(11, 0) == Hi(11, 0) == 11
    ensures Lo(10, 3) == 8 && Hi(10, 3) == 15 && Lo(12, 3) == 8 && Hi(12, 3) == 15
    ensures Lo(11, 1) == 10 && Hi(11, 1) == 11
  {
  }

  lemma EstrangedOrdered()
    ensures Ordered([Peer(10, 1), Peer(12, 1)])
  {
    EstrangedBounds();
    assert [Peer(10, 1), Peer(12, 1)][1..] == [Peer(12, 1)];
  }

  lemma EstrangedParts(ttl: nat)
    ensures var net := Estranged(ttl);
            && NodeNested(net, 8, net.nodes[8]) && NodeNested(net, 10, net.nodes[10])
            && NodeNested(net, 12, net.nodes[12]) && NodeNested(net, 11, net.nodes[11])
  {
    EstrangedBounds();
    EstrangedOrdered();
  }

  lemma EstrangedNested(ttl: nat)
    ensures var net := Estranged(ttl); Nested(net) && Complete(net) && TreeLinksUp(net)
  {
    var net := Estranged(ttl);
    EstrangedBounds();
    EstrangedParts(ttl);
    assert Peer(10, 1) in net.nodes[8].children && Peer(12, 1) in net.nodes[8].children;
    assert HasWay(net.nodes[8], 10) && HasWay(net.nodes[8], 11) && HasWay(net.nodes[8], 12);
    assert Peer(11, 0) in net.nodes[10].children;
    assert HasWay(net.nodes[10], 11);
  }

  lemma EstrangedTargets(ttl: nat)
    ensures Target(Estranged(ttl).nodes[11], false, 12) == To(Peer(10, 1))
    ensures Target(Estranged(ttl).nodes[10], false, 12) == To(Peer(12, 1))
    ensures Target(Estranged(ttl).nodes[8], false, 12) == To(Peer(12, 1))
  {
    EstrangedBounds();
    EstrangedOrdered();
    FindIsScan([Peer(12, 1)], 12);
    FindIsScan([Peer(10, 1), Peer(12, 1)], 12);
  }

  lemma EstrangedWay(ttl: nat)
    ensures Way(Estranged(ttl), 11, 12) == [Hop(10, 1), Hop(8, 2), Hop(12, 1)] && Voyage(Estranged(ttl), 10, 12) == []
  {
    var net := Estranged(ttl);
    EstrangedBounds();
    EstrangedTargets(ttl);
    assert Way(net, 8, 12) == [Hop(12, 1)] + Way(net, 12, 12);
    assert Way(net, 10, 12) == [Hop(8, 2)] + Way(net, 8, 12);
    assert Way(net, 11, 12) == [Hop(10, 1)] + Way(net, 10, 12);
  }

  /** What each node on the way does with the letter. */
  lemma EstrangedSteps(ttl: nat)
    requires ttl > 1
    ensures OnRequest(Estranged(ttl), 10, Letter(12, 11, [11])) == Passed(8, Letter(12, 10, [11, 10, 10]))
    ensures OnRequest(Estranged(ttl), 8, Letter(12, 10, [11, 10, 10])) ==
            if ttl <= 3 then Expired else Passed(12, Letter(12, 8, [11, 10, 10, 8]))
  {
    EstrangedTargets(ttl);
    EstrangedBounds();
    assert [11] + [10] + [10] == [11, 10, 10] && [11, 10, 10] + [8] == [11, 10, 10, 8];
  }

  lemma EstrangedVoyage(ttl: nat)
    requires ttl > 1
    ensures Voyage(Estranged(ttl), 11, 12) == if ttl <= 3 then [10, 8] else [10, 8, 12]
  {
    var net := Estranged(ttl);
    var m, m8, m12 := Letter(12, 11, [11]), Letter(12, 10, [11, 10, 10]), Letter(12, 8, [11, 10, 10, 8]);
    EstrangedSteps(ttl);
    EstrangedSets(ttl);
    JourneyStep(net, 10, m);
    JourneyStep(net, 8, m8);
    JourneyStep(net, 12, m12);
  }

  lemma EstrangedSets(ttl: nat)
    ensures SendMsg(Estranged(ttl), 11, 12) == Sending(Success, Some(Peer(10, 1)), true)
    ensures OnRequest(Estranged(ttl), 12, Letter(12, 8, [11, 10, 10, 8])) == Delivered
  {
    EstrangedTargets(ttl);
  }

  lemma JourneyStep(net: Net, n: nat, m: Letter)
    requires n in net.nodes
    ensures var o := OnRequest(net, n, m);
            Journey(net, n, m) ==
            if !o.Passed? then [] else [o.next] + if o.next in net.nodes then Journey(net, o.next, o.letter) else []
  {
  }

  /** From 11 to 12: the broken link is tried on the way and leaves its entry, so the way of three hops, which
      a limit of three would allow, is cut off before the last; it takes a limit of four. Data of 10's own is
      refused. */
  lemma AroundTheBrother(ttl: nat)
    ensures var net := Estranged(ttl);
            && Nested(net) && Complete(net) && TreeLinksUp(net)
            && Way(net, 11, 12) == [Hop(10, 1), Hop(8, 2), Hop(12, 1)] && Voyage(net, 10, 12) == []
    ensures Voyage(Estranged(3), 11, 12) == [10, 8] && Voyage(Estranged(4), 11, 12) == [10, 8, 12]
  {
    EstrangedNested(ttl);
    EstrangedWay(ttl);
    EstrangedVoyage(3);
    EstrangedVoyage(4);
  }
}
