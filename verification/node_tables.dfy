/** What a node knows of its direct father, brothers and children. */
module NodeTables {
  import opened Base
  import opened Domains
  import opened EndpointTables

  datatype Tables = Tables(self: Peer, father: Option<Peer>, brothers: seq<Peer>, children: seq<Peer>) {
    predicate IsParentId(id: nat) { father.Some? && father.value.id == id }

    predicate IsChildId(id: nat) { self.Holds(id) }

    /** In the domain of the same father, and not in the node's own. */
    predicate IsBrotherId(id: nat) {
      var fatherMask := if father.Some? then father.value.mask else 0;
      !self.Holds(id) && (fatherMask == 0 || Peer(self.id, fatherMask).Holds(id))
    }

    /** Whether an endpoint becomes the father. */
    predicate IsFatherOf(ep: Peer) { ep.mask > self.mask && ep.Holds(self.id) }

    /** Children lie inside the node's own domain, brothers outside it, the father's is wider. */
    ghost predicate Ok() {
      && Ordered(brothers) && Ordered(children)
      && (forall p :: p in brothers ==> p.Apart(self))
      && (forall p :: p in children ==> self.Covers(p))
      && (father.Some? ==> IsFatherOf(father.value))
    }

    /** Every child spans less than the node. */
    ghost predicate Narrow() { forall p :: p in children ==> p.mask < self.mask }

    /** The direct endpoint with an id. */
    function GetEndpoint(id: nat): Option<Peer> {
      if IsParentId(id) then father
      else if IsBrotherId(id) then Exactly(FindChild(brothers, id), id)
      else if IsChildId(id) then Exactly(FindChild(children, id), id)
      else None
    }

    /** A brother that the domain of the present father leaves outside. */
    predicate Stranded(p: Peer) {
      father.Some? && father.value.mask != 0 && !Peer(self.id, father.value.mask).Holds(p.id)
    }

    ghost predicate Direct(p: Peer) { p in brothers || p in children }

    /** No brother or child bears the father's id. */
    ghost predicate Unshadowed() { forall p :: Direct(p) ==> !IsParentId(p.id) }

    ghost predicate Knows(p: Peer) { father == Some(p) || Direct(p) }
  }

  function Exactly(p: Option<Peer>, id: nat): Option<Peer> {
    if p.Some? && p.value.id == id then p else None
  }

  /** The father's domain strictly contains the node's own. */
  lemma FatherCovers(t: Tables)
    requires t.Ok() && t.father.Some?
    ensures t.father.value.Covers(t.self)
    ensures t.self.Min() != t.father.value.Min() || t.self.Max() != t.father.value.Max()
  {
    NestedOrApart(t.self, t.father.value);
    Wider(t.self.id, t.self.mask, t.father.value.mask);
    var f := t.father.value;
    AboveIff(f.id, t.self.id, f.mask);
  }

  lemma Wider(x: nat, m: nat, k: nat)
    requires m < k
    ensures Hi(x, m) - Lo(x, m) < Hi(x, k) - Lo(x, k)
    decreases m
  {
    SpanIs(x, m);
    SpanIs(x, k);
    Pow2Grows(m, k);
  }

  lemma {:induction false} SpanIs(x: nat, m: nat)
    ensures Hi(x, m) - Lo(x, m) == Pow2(m) - 1
    decreases m
  {
    if m > 0 {
      SpanIs(x / 2, m - 1);
    }
  }

  lemma {:induction false} Pow2Grows(m: nat, k: nat)
    requires m < k
    ensures Pow2(m) < Pow2(k)
    decreases k
  {
    if m < k - 1 {
      Pow2Grows(m, k - 1);
    }
  }

  /** No id lies in the domains of two direct endpoints. */
  lemma OneHolder(t: Tables, p: Peer, q: Peer, id: nat)
    requires t.Ok() && t.Direct(p) && t.Direct(q) && p.Holds(id) && q.Holds(id)
    ensures p == q
  {
    FindIsScan(t.brothers, id);
    FindIsScan(t.children, id);
    assert forall r :: r in t.brothers ==> r.Apart(t.self);
    assert forall r :: r in t.children ==> t.self.Covers(r);
  }

  /** The direct endpoint with an id is found exactly, unless it is a brother left outside the father's
      domain or bears the father's own id. */
  lemma GetIsScan(t: Tables, p: Peer)
    requires t.Ok() && t.Direct(p)
    ensures t.GetEndpoint(p.id) == Some(p) <==>
            t.father == Some(p) || (!t.IsParentId(p.id) && !(p in t.brothers && t.Stranded(p)))
  {
    HoldsOwn(p);
    FindIsScan(t.brothers, p.id);
    FindIsScan(t.children, p.id);
  }

  /** What is found bears the id, and is the father or a brother or a child. */
  lemma GetIsDirect(t: Tables, id: nat)
    requires t.Ok() && t.GetEndpoint(id).Some?
    ensures t.GetEndpoint(id).value.id == id && t.Knows(t.GetEndpoint(id).value)
  {
    FindIsScan(t.brothers, id);
    FindIsScan(t.children, id);
  }

  /** Which test of its domain a brother or a child passes. */
  lemma DomainTests(t: Tables, p: Peer)
    requires t.Ok() && t.Direct(p)
    ensures p in t.children ==> t.IsChildId(p.id) && !t.IsBrotherId(p.id) && p !in t.brothers
    ensures p in t.brothers ==> !t.IsChildId(p.id) && (t.IsBrotherId(p.id) <==> !t.Stranded(p)) && p !in t.children
  {
    HoldsOwn(p);
  }

  /** Removing by the id of a brother or child removes it, unless it bears the father's id, which is
      tested first, or is a brother that the father's domain leaves outside. */
  lemma RemovedIff(t: Tables, p: Peer, status: Status, t': Tables)
    requires t.Ok() && t.Direct(p) && Removed(t, p.id, status, t')
    ensures !t'.Direct(p) <==> !t.IsParentId(p.id) && !(p in t.brothers && t.Stranded(p))
    ensures t.IsParentId(p.id) ==> status == Success && t' == t.(father := None)
    ensures !t.IsParentId(p.id) && p in t.brothers && t.Stranded(p) ==> status == InvalidId
  {
    DomainTests(t, p);
  }

  /** A run that leaves a brother where removal no longer finds it: it registered before a father that does
      not hold it. */
  lemma StrandedBrother() returns (empty: Tables, joined: Tables, t: Tables, b: Peer, f: Peer)
    ensures empty == Tables(Peer(2, 1), None, [], []) && b == Peer(8, 1) && f == Peer(1, 2)
    ensures Registered(empty, Plain(b), Success, joined) && Registered(joined, Plain(f), Success, t)
    ensures b in t.brothers && Removed(t, b.id, InvalidId, t)
  {
    empty, b, f := Tables(Peer(2, 1), None, [], []), Peer(8, 1), Peer(1, 2);
    joined := empty.(brothers := [b]);
    t := joined.(father := Some(f));
    StrandedBounds();
    assert Joined(empty.brothers, b, Success, joined.brothers);
  }

  /** A run after which removing by a child's id drops the father and keeps the child: both bear it. The father
      joins by a direct call; one that registered would be taken for the child. */
  lemma ShadowedChild() returns (empty: Tables, joined: Tables, t: Tables, c: Peer, f: Peer)
    ensures empty == Tables(Peer(2, 1), None, [], []) && c == Peer(3, 0) && f == Peer(3, 2)
    ensures Added(empty, c, Success, joined) && Added(joined, f, Success, t)
    ensures c in t.children && Removed(t, c.id, Success, joined) && c in joined.children
    ensures joined.GetEndpoint(f.id) == Some(c)
  {
    empty, c, f := Tables(Peer(2, 1), None, [], []), Peer(3, 0), Peer(3, 2);
    joined := empty.(children := [c]);
    t := joined.(father := Some(f));
    StrandedBounds();
    assert Joined(empty.children, c, Success, joined.children);
  }

  lemma StrandedBounds()
    ensures Lo(2, 1) == 2 && Hi(2, 1) == 3 && Lo(8, 1) == 8 && Hi(8, 1) == 9
    ensures Lo(1, 2) == 0 && Hi(1, 2) == 3 && Lo(2, 2) == 0 && Hi(2, 2) == 3
    ensures Lo(3, 2) == 0 && Hi(3, 2) == 3 && Lo(3, 0) == Hi(3, 0) == 3
  {
  }

  /** An id the node would look for among its brothers: outside its own domain, and inside the father's if there
      is one. */
  ghost predicate Beside(t: Tables, tid: nat) {
    !t.self.Holds(tid) && (t.father.None? || t.father.value.Holds(tid))
  }

  lemma BesideIff(t: Tables, tid: nat)
    requires t.Ok()
    ensures t.IsBrotherId(tid) <==> Beside(t, tid)
  {
    if t.father.Some? {
      var f := t.father.value;
      AboveIff(f.id, t.self.id, f.mask);
    }
  }

  /** What adding to one table does: the endpoint joins unless its domain meets one there. */
  ghost predicate Joined(before: seq<Peer>, ep: Peer, status: Status, after: seq<Peer>) {
    if forall p :: p in before ==> p.Apart(ep) then
      status == Success && multiset(after) == multiset(before) + multiset{ep}
    else status == MaskConflict && after == before
  }

  /** What adding an endpoint does to the tables. */
  ghost predicate Added(t: Tables, ep: Peer, status: Status, t': Tables) {
    if t.IsFatherOf(ep) then
      if t.father.None? then status == Success && t' == t.(father := Some(ep)) else status == InvalidId && t' == t
    else if t.IsBrotherId(ep.id) then Joined(t.brothers, ep, status, t'.brothers) && t' == t.(brothers := t'.brothers)
    else if t.IsChildId(ep.id) then Joined(t.children, ep, status, t'.children) && t' == t.(children := t'.children)
    else status == InvalidId && t' == t
  }

  /** When an endpoint is added, with which code it is refused, and that nothing else changes. */
  lemma AddedIff(t: Tables, ep: Peer, status: Status, t': Tables)
    requires t.Ok() && Added(t, ep, status, t')
    ensures var above, inside := ep.mask > t.self.mask && ep.Holds(t.self.id), t.self.Holds(ep.id);
            && (status == Success <==>
                  if above then t.father.None?
                  else if inside then forall p :: p in t.children ==> p.Apart(ep)
                  else (t.father.None? || t.father.value.Holds(ep.id)) && forall p :: p in t.brothers ==> p.Apart(ep))
            && (status == MaskConflict <==>
                  !above && if inside then exists p :: p in t.children && !p.Apart(ep)
                            else (t.father.None? || t.father.value.Holds(ep.id)) &&
                                 exists p :: p in t.brothers && !p.Apart(ep))
            && (status != Success && status != MaskConflict ==> status == InvalidId)
    ensures if status == Success then forall p :: t'.Knows(p) <==> t.Knows(p) || p == ep else t' == t
  {
    BesideIff(t, ep.id);
    forall p ensures t'.Knows(p) <==> t.Knows(p) || (status == Success && p == ep) {
      assert p in t'.brothers <==> p in multiset(t'.brothers);
      assert p in t'.children <==> p in multiset(t'.children);
      assert p in t.brothers <==> p in multiset(t.brothers);
      assert p in t.children <==> p in multiset(t.children);
    }
  }

  /** What removing from one table does. */
  ghost predicate Cleared(before: seq<Peer>, id: nat, status: Status, after: seq<Peer>) {
    && status == (if exists p :: p in before && p.id == id then Success else NotFound)
    && (status != Success ==> after == before)
    && forall p :: p in after <==> p in before && p.id != id
  }

  /** What removing by an id does to the tables. */
  ghost predicate Removed(t: Tables, id: nat, status: Status, t': Tables) {
    if t.IsParentId(id) then status == Success && t' == t.(father := None)
    else if t.IsBrotherId(id) then Cleared(t.brothers, id, status, t'.brothers) && t' == t.(brothers := t'.brothers)
    else if t.IsChildId(id) then Cleared(t.children, id, status, t'.children) && t' == t.(children := t'.children)
    else status == InvalidId && t' == t
  }

  /** Adds an endpoint to one table. */
  method AddTo(before: seq<Peer>, ep: Peer) returns (status: Status, after: seq<Peer>)
    requires Ordered(before)
    ensures Ordered(after) && Joined(before, ep, status, after)
    ensures forall p :: p in after ==> p in before || p == ep
  {
    var ok;
    ok, after := InsertChild(before, ep);
    status := if ok then Success else MaskConflict;
    forall p | p in after ensures p in before || p == ep {
      assert p in multiset(after);
    }
  }

  /** A peer asks to be registered: what it says of itself, and how its connection stands, which may be bound
      already, to an endpoint or to none. Whether a known endpoint is the same process and takes the
      connection, and whether the node has a global table, is given too. */
  datatype Request = Request(ep: Peer, globalTree: bool, connected: bool, binding: Option<nat>,
                             sameProcess: bool, taken: bool, selfGlobal: bool)

  function Plain(ep: Peer): Request { Request(ep, false, false, None, true, true, false) }

  /** What a request for registration does to the tables. */
  ghost predicate Registered(t: Tables, r: Request, status: Status, t': Tables) {
    var id, known := r.ep.id, t.GetEndpoint(r.ep.id);
    if r.connected then status == (if r.binding == Some(id) then Success else BusIdNotMatch) && t' == t
    else if known.Some? then
      && known.value.id == id && t.Knows(known.value) && t' == t
      && status == if !r.sameProcess then IdConflict else if !r.taken then NoConnection else Success
    else if t.self.Holds(id) && r.globalTree && !r.selfGlobal then status == AccessDenied && t' == t
    else if t.self.Holds(id) && t.self.mask <= r.ep.mask then status == MaskConflict && t' == t
    else Added(t, r.ep, status, t')
  }

  /** An id that a lookup finds: the father's, or that of a direct endpoint the father's domain does not leave
      outside. */
  ghost predicate Findable(t: Tables, id: nat) {
    t.IsParentId(id) || exists p :: t.Direct(p) && p.id == id && !(p in t.brothers && t.Stranded(p))
  }

  lemma FindableIff(t: Tables, id: nat)
    requires t.Ok()
    ensures t.GetEndpoint(id).Some? <==> Findable(t, id)
  {
    forall p | t.Direct(p) && p.id == id ensures t.IsParentId(id) || (t.GetEndpoint(id) == Some(p) <==>
                                                                       !(p in t.brothers && t.Stranded(p))) {
      GetIsScan(t, p);
    }
    if t.GetEndpoint(id).Some? {
      GetIsDirect(t, id);
    }
  }

  /** The code of a removal: it succeeds exactly for an id that a lookup finds, and then that id alone goes. */
  lemma RemovedSays(t: Tables, id: nat, status: Status, t': Tables)
    requires t.Ok() && Removed(t, id, status, t')
    ensures status == Success <==> Findable(t, id)
    ensures status == InvalidId <==> !t.IsParentId(id) && !t.self.Holds(id) && !Beside(t, id)
    ensures status == Success || status == InvalidId || status == NotFound
    ensures status != Success ==> t' == t
    ensures status == Success ==>
              if t.IsParentId(id) then t' == t.(father := None)
              else t'.father == t.father && forall p :: t'.Direct(p) <==> t.Direct(p) && p.id != id
  {
    BesideIff(t, id);
    forall p | t.Direct(p)
      ensures p in t.children ==> t.IsChildId(p.id) && !t.IsBrotherId(p.id) && p !in t.brothers
      ensures p in t.brothers ==> !t.IsChildId(p.id) && (t.IsBrotherId(p.id) <==> !t.Stranded(p)) && p !in t.children
    {
      DomainTests(t, p);
    }
  }

  /** The code of a registration, told by what the node knows. */
  lemma RegisteredIff(t: Tables, r: Request, status: Status, t': Tables)
    requires t.Ok() && Registered(t, r, status, t')
    ensures status == BusIdNotMatch <==> r.connected && r.binding != Some(r.ep.id)
    ensures status == IdConflict <==> !r.connected && Findable(t, r.ep.id) && !r.sameProcess
    ensures status == NoConnection <==> !r.connected && Findable(t, r.ep.id) && r.sameProcess && !r.taken
    ensures status == AccessDenied <==>
              !r.connected && !Findable(t, r.ep.id) && t.self.Holds(r.ep.id) && r.globalTree && !r.selfGlobal
    ensures r.connected || Findable(t, r.ep.id) || status == AccessDenied ==> t' == t
    ensures !r.connected && !Findable(t, r.ep.id) && status != AccessDenied ==>
              if t.self.Holds(r.ep.id) && t.self.mask <= r.ep.mask then status == MaskConflict && t' == t
              else Added(t, r.ep, status, t')
  {
    FindableIff(t, r.ep.id);
    if !r.connected && !Findable(t, r.ep.id) && status != AccessDenied && Added(t, r.ep, status, t') {
      AddedIff(t, r.ep, status, t');
    }
  }

  lemma JoinedIn(before: seq<Peer>, ep: Peer, status: Status, after: seq<Peer>, p: Peer)
    requires Joined(before, ep, status, after) && p in after
    ensures p in before || p == ep
  {
    assert p in multiset(after);
  }

  /** Children stay narrower than the node, and no registered peer bears the father's id: whoever has an id
      that is taken is answered by the endpoint that has it. */
  lemma RegisteredKeeps(t: Tables, r: Request, status: Status, t': Tables)
    requires t.Ok() && Registered(t, r, status, t')
    ensures t.Narrow() ==> t'.Narrow()
    ensures t.Unshadowed() ==> t'.Unshadowed()
  {
    if t' != t {
      forall p | p in t'.children ensures p in t.children || (p == r.ep && t.self.Holds(p.id)) {
        if t'.children != t.children {
          JoinedIn(t.children, r.ep, status, t'.children, p);
        }
      }
      forall p | p in t'.brothers ensures p in t.brothers || p == r.ep {
        if t'.brothers != t.brothers {
          JoinedIn(t.brothers, r.ep, status, t'.brothers, p);
        }
      }
      FreeId(t, r.ep.id);
    }
  }

  /** An id for which no endpoint is found is no father's; without a father it is no brother's or child's
      either. */
  lemma FreeId(t: Tables, id: nat)
    requires t.Ok() && t.GetEndpoint(id).None?
    ensures !t.IsParentId(id)
    ensures t.father.None? ==> forall p :: t.Direct(p) ==> p.id != id
  {
    forall p | t.father.None? && t.Direct(p) ensures p.id != id {
      GetIsScan(t, p);
    }
  }

  lemma RemovedKeeps(t: Tables, id: nat, status: Status, t': Tables)
    requires Removed(t, id, status, t')
    ensures (t.Narrow() ==> t'.Narrow()) && (t.Unshadowed() ==> t'.Unshadowed())
  {
  }

  /** What may befall a node's tables once it runs. */
  datatype Call = Register(request: Request) | Remove(id: nat)

  class Node {
    const self: Peer
    var father: Option<Peer>
    var brothers: seq<Peer>
    var children: seq<Peer>

    function Now(): Tables
      reads this
    {
      Tables(self, father, brothers, children)
    }

    ghost predicate Valid()
      reads this
    {
      Now().Ok()
    }

    constructor (self: Peer)
      ensures Valid() && Now() == Tables(self, None, [], [])
    {
      this.self, father, brothers, children := self, None, [], [];
    }

    /** Adds a father, a brother or a child. */
    method AddEndpoint(ep: Peer) returns (status: Status)
      requires Valid()
      modifies this
      ensures Valid() && Added(old(Now()), ep, status, Now())
    {
      if Now().IsFatherOf(ep) {
        if father.None? {
          father := Some(ep);
          return Success;
        }
        return InvalidId;
      }
      PlaceOf(self, ep);
      if Now().IsBrotherId(ep.id) {
        status, brothers := AddTo(brothers, ep);
        return status;
      }
      if Now().IsChildId(ep.id) {
        status, children := AddTo(children, ep);
        return status;
      }
      return InvalidId;
    }

    /** A peer registers itself. A connection that is bound already must be bound to an endpoint with its id; a
        peer that is known must be the same process and only brings a connection, which its endpoint may
        refuse; a new one in the node's own domain must span less than the node does. */
    method Register(r: Request) returns (status: Status)
      requires Valid()
      modifies this
      ensures Valid() && Registered(old(Now()), r, status, Now())
    {
      if r.connected {
        return if r.binding == Some(r.ep.id) then Success else BusIdNotMatch;
      }
      var known := Now().GetEndpoint(r.ep.id);
      if known.Some? {
        GetIsDirect(Now(), r.ep.id);
        if !r.sameProcess {
          return IdConflict;
        }
        return if r.taken then Success else NoConnection;
      }
      if self.Holds(r.ep.id) {
        if r.globalTree && !r.selfGlobal {
          return AccessDenied;
        }
        if self.mask <= r.ep.mask {
          return MaskConflict;
        }
      }
      status := AddEndpoint(r.ep);
    }

    /** Removes the endpoint with an id. */
    method RemoveEndpoint(id: nat) returns (status: Status)
      requires Valid()
      modifies this
      ensures Valid() && Removed(old(Now()), id, status, Now())
    {
      if Now().IsParentId(id) {
        father := None;
        return Success;
      }
      var ok;
      if Now().IsBrotherId(id) {
        ok, brothers := RemoveChild(brothers, id);
        return if ok then Success else NotFound;
      }
      if Now().IsChildId(id) {
        ok, children := RemoveChild(children, id);
        return if ok then Success else NotFound;
      }
      return InvalidId;
    }
  }

  /** Over every run of registrations and removals from an empty node on, children stay narrower than the node
      and no brother or child bears the father's id. */
  method RunNode(self: Peer, calls: seq<Call>) returns (n: Node, codes: seq<Status>)
    ensures fresh(n) && n.Valid() && n.self == self && |codes| == |calls|
    ensures n.Now().Narrow() && n.Now().Unshadowed()
  {
    n := new Node(self);
    codes := [];
    for i := 0 to |calls|
      invariant fresh(n) && n.Valid() && n.self == self && |codes| == i
      invariant n.Now().Narrow() && n.Now().Unshadowed()
    {
      ghost var t := n.Now();
      var status;
      match calls[i] {
        case Register(r) =>
          status := n.Register(r);
          RegisteredKeeps(t, r, status, n.Now());
        case Remove(id) =>
          status := n.RemoveEndpoint(id);
          RemovedKeeps(t, id, status, n.Now());
      }
      codes := codes + [status];
    }
  }

  /** Of such a node, removal by the id of a brother or child fails for those brothers only that the father's
      domain leaves outside. */
  lemma RemovedUnlessStranded(t: Tables, p: Peer, status: Status, t': Tables)
    requires t.Ok() && t.Unshadowed() && t.Direct(p) && Removed(t, p.id, status, t')
    ensures !t'.Direct(p) <==> !(p in t.brothers && t.Stranded(p))
    ensures if p in t.brothers && t.Stranded(p) then status == InvalidId && t' == t else status == Success
  {
    RemovedIff(t, p, status, t');
    DomainTests(t, p);
  }

  /** An endpoint that is no father lies inside the node's domain if its id does, and outside it otherwise. */
  lemma PlaceOf(self: Peer, ep: Peer)
    requires !(ep.mask > self.mask && ep.Holds(self.id))
    ensures if self.Holds(ep.id) then self.Covers(ep) else ep.Apart(self)
  {
    if ep.mask <= self.mask {
      NestedOrApart(ep, self);
    } else {
      NestedOrApart(self, ep);
    }
  }
}
