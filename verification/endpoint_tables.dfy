/** The ordered map from the upper end of a domain to its endpoint, as the sequence of its entries. */
module EndpointTables {
  import opened Base
  import opened Domains

  /** Domains in order, none touching the next. */
  ghost predicate Ordered(t: seq<Peer>)
    decreases t
  {
    |t| > 1 ==> t[0].Max() < t[1].Min() && Ordered(t[1..])
  }

  lemma {:induction false} OrderedAt(t: seq<Peer>, i: nat, j: nat)
    requires Ordered(t) && i < j < |t|
    ensures t[i].Max() < t[j].Min()
    decreases t
  {
    if i > 0 {
      OrderedAt(t[1..], i - 1, j - 1);
    } else if j > 1 {
      OrderedAt(t[1..], 0, j - 1);
      HoldsOwn(t[1]);
    }
  }

  lemma HoldsOwn(p: Peer)
    ensures p.Min() <= p.id <= p.Max()
  {
    AboveIff(p.id, p.id, p.mask);
  }

  /** The first entry whose key is not below `id`. */
  function LowerBound(t: seq<Peer>, id: nat): (i: nat)
    ensures i <= |t| && (i < |t| ==> id <= t[i].Max()) && (i > 0 ==> t[i - 1].Max() < id)
    decreases t
  {
    if t == [] || id <= t[0].Max() then 0 else 1 + LowerBound(t[1..], id)
  }

  /** The endpoint to which a message for `id` goes, found by looking at one entry. */
  function FindChild(t: seq<Peer>, id: nat): Option<Peer> {
    var i := LowerBound(t, id);
    if i == |t| then None
    else if t[i].id == id then Some(t[i])
    else if t[i].Holds(id) then Some(t[i])
    else None
  }

  /** That lookup agrees with a scan of the whole table: it gives the one endpoint whose domain holds the id. */
  lemma FindIsScan(t: seq<Peer>, id: nat)
    requires Ordered(t)
    ensures FindChild(t, id).None? ==> forall p :: p in t ==> !p.Holds(id)
    ensures FindChild(t, id).Some? ==> FindChild(t, id).value in t
    ensures FindChild(t, id).Some? ==> forall p :: p in t ==> (p.Holds(id) <==> p == FindChild(t, id).value)
  {
    var i := LowerBound(t, id);
    forall j | 0 <= j < |t| ensures j != i ==> !t[j].Holds(id) {
      HoldsOwn(t[j]);
      if j < i {
        BelowBound(t, id, j);
      } else if j > i {
        OrderedAt(t, i, j);
      }
    }
    if i < |t| {
      HoldsOwn(t[i]);
      forall j | 0 <= j < |t| && j != i ensures t[j] != t[i] {
        HoldsOwn(t[j]);
        OrderedAt(t, if j < i then j else i, if j < i then i else j);
      }
    }
  }

  lemma {:induction false} BelowBound(t: seq<Peer>, id: nat, j: nat)
    requires j < LowerBound(t, id)
    ensures j < |t| && t[j].Max() < id
    decreases t
  {
    if j > 0 {
      BelowBound(t[1..], id, j - 1);
    }
  }

  /** What the two neighbours tell about a new endpoint. */
  predicate NeighboursAllow(t: seq<Peer>, ep: Peer) {
    var i := LowerBound(t, ep.id);
    && (i < |t| ==> t[i].id != ep.id && !t[i].Holds(ep.id) && !ep.Holds(t[i].id))
    && (i > 0 ==> !ep.Holds(t[i - 1].id))
  }

  lemma ApartIff(p: Peer, q: Peer)
    ensures p.Apart(q) <==> !p.Holds(q.id) && !q.Holds(p.id)
    ensures p.Apart(q) <==> q.Apart(p)
    ensures p.Holds(q.id) ==> p.Covers(q) || q.Covers(p)
  {
    HoldsOwn(p);
    HoldsOwn(q);
    if p.mask <= q.mask {
      NestedOrApart(p, q);
    } else {
      NestedOrApart(q, p);
    }
  }

  /** The neighbours decide for the whole table. */
  lemma NeighboursDecide(t: seq<Peer>, ep: Peer)
    requires Ordered(t)
    ensures NeighboursAllow(t, ep) <==> forall j :: 0 <= j < |t| ==> t[j].Apart(ep)
  {
    var i := LowerBound(t, ep.id);
    HoldsOwn(ep);
    if NeighboursAllow(t, ep) {
      forall j | 0 <= j < |t| ensures t[j].Apart(ep) {
        ApartIff(t[j], ep);
        HoldsOwn(t[j]);
        if j < i {
          BelowBound(t, ep.id, j);
          if j < i - 1 {
            OrderedAt(t, j, i - 1);
            ApartIff(t[i - 1], ep);
            HoldsOwn(t[i - 1]);
          }
        } else if j > i {
          OrderedAt(t, i, j);
          ApartIff(t[i], ep);
          HoldsOwn(t[i]);
        }
      }
    } else if i < |t| && (t[i].id == ep.id || t[i].Holds(ep.id) || ep.Holds(t[i].id)) {
      ApartIff(t[i], ep);
      HoldsOwn(t[i]);
      assert !t[i].Apart(ep);
    } else {
      ApartIff(t[i - 1], ep);
      assert !t[i - 1].Apart(ep);
    }
  }

  /** Assigns an entry to its key. */
  function Put(t: seq<Peer>, ep: Peer): seq<Peer> {
    var i := LowerBound(t, ep.Max());
    if i < |t| && t[i].Max() == ep.Max() then t[i := ep] else t[..i] + [ep] + t[i..]
  }

  lemma PutPlace(t: seq<Peer>, ep: Peer) returns (i: nat)
    requires forall j :: 0 <= j < |t| ==> t[j].Apart(ep)
    ensures i <= |t| && Put(t, ep) == t[..i] + [ep] + t[i..]
    ensures (i > 0 ==> t[i - 1].Max() < ep.Min()) && (i < |t| ==> ep.Max() < t[i].Min())
  {
    i := LowerBound(t, ep.Max());
    HoldsOwn(ep);
    if i < |t| {
      HoldsOwn(t[i]);
    }
    if i > 0 {
      HoldsOwn(t[i - 1]);
    }
  }

  lemma PutBag<T>(t: seq<T>, i: nat, x: T)
    requires i <= |t|
    ensures multiset(t[..i] + [x] + t[i..]) == multiset(t) + multiset{x}
  {
    assert t == t[..i] + t[i..];
  }

  lemma PutOrdered(t: seq<Peer>, ep: Peer)
    requires Ordered(t) && forall j :: 0 <= j < |t| ==> t[j].Apart(ep)
    ensures Ordered(Put(t, ep)) && multiset(Put(t, ep)) == multiset(t) + multiset{ep}
  {
    var i := PutPlace(t, ep);
    PutBag(t, i, ep);
    OrderedParts(t, i);
    OrderedJoin(t[..i], [ep]);
    OrderedJoin(t[..i] + [ep], t[i..]);
  }

  lemma {:induction false} OrderedParts(t: seq<Peer>, i: nat)
    requires Ordered(t) && i <= |t|
    ensures Ordered(t[..i]) && Ordered(t[i..])
    decreases t
  {
    if i > 0 {
      OrderedParts(t[1..], i - 1);
      assert t[1..][i - 1..] == t[i..] && t[..i][1..] == t[1..][..i - 1];
    } else {
      assert t[0..] == t;
    }
  }

  lemma {:induction false} OrderedJoin(s: seq<Peer>, t: seq<Peer>)
    requires Ordered(s) && Ordered(t) && (s != [] && t != [] ==> s[|s| - 1].Max() < t[0].Min())
    ensures Ordered(s + t)
    decreases s
  {
    if s == [] {
      assert s + t == t;
    } else {
      assert (s + t)[1..] == s[1..] + t;
      OrderedJoin(s[1..], t);
    }
  }

  /** Adds an endpoint unless its domain meets one in the table. */
  method InsertChild(coll: seq<Peer>, ep: Peer) returns (ok: bool, coll': seq<Peer>)
    requires Ordered(coll)
    ensures Ordered(coll') && (ok <==> forall p :: p in coll ==> p.Apart(ep))
    ensures multiset(coll') == if ok then multiset(coll) + multiset{ep} else multiset(coll)
    ensures !ok ==> coll' == coll
  {
    NeighboursDecide(coll, ep);
    ok, coll' := false, coll;
    var iter := LowerBound(coll, ep.id);
    if iter == |coll| {
      if coll != [] && ep.Holds(coll[|coll| - 1].id) {
        return;
      }
    } else {
      if coll[iter].id == ep.id {
        return;
      }
      if coll[iter].Holds(ep.id) || ep.Holds(coll[iter].id) {
        return;
      }
      if iter != 0 && ep.Holds(coll[iter - 1].id) {
        return;
      }
    }
    PutOrdered(coll, ep);
    ok, coll' := true, Put(coll, ep);
  }

  /** Removes the endpoint with exactly this id. */
  method RemoveChild(coll: seq<Peer>, id: nat) returns (ok: bool, coll': seq<Peer>)
    requires Ordered(coll)
    ensures Ordered(coll') && (ok <==> exists p :: p in coll && p.id == id)
    ensures !ok ==> coll' == coll
    ensures ok ==> exists i :: 0 <= i < |coll| && coll[i].id == id && coll' == coll[..i] + coll[i + 1..]
    ensures ok ==> forall p :: p in coll' <==> p in coll && p.id != id
  {
    FindIsScan(coll, id);
    forall p | p in coll ensures p.Holds(p.id) {
      HoldsOwn(p);
    }
    ok, coll' := false, coll;
    var iter := LowerBound(coll, id);
    if iter == |coll| {
      return;
    }
    if coll[iter].id != id {
      return;
    }
    OrderedWithout(coll, iter);
    OthersStay(coll, iter);
    ok, coll' := true, coll[..iter] + coll[iter + 1..];
  }

  lemma OrderedWithout(t: seq<Peer>, i: nat)
    requires Ordered(t) && i < |t|
    ensures Ordered(t[..i] + t[i + 1..])
  {
    var a, b := t[..i], t[i + 1..];
    OrderedParts(t, i);
    OrderedParts(t, i + 1);
    if 0 < i < |t| - 1 {
      assert a[|a| - 1] == t[i - 1] && b[0] == t[i + 1];
      OrderedAt(t, i - 1, i + 1);
    }
    OrderedJoin(a, b);
  }

  lemma OthersStay(t: seq<Peer>, i: nat)
    requires Ordered(t) && i < |t|
    ensures forall p :: p in t[..i] + t[i + 1..] <==> p in t && p.id != t[i].id
  {
    forall j | 0 <= j < |t| && j != i ensures t[j].id != t[i].id {
      IdsDiffer(t, i, j);
    }
    assert t == t[..i] + [t[i]] + t[i + 1..];
  }

  lemma IdsDiffer(t: seq<Peer>, i: nat, j: nat)
    requires Ordered(t) && i < |t| && j < |t| && i != j
    ensures t[i].id != t[j].id
  {
    HoldsOwn(t[i]);
    HoldsOwn(t[j]);
    OrderedAt(t, if j < i then j else i, if j < i then i else j);
  }
}
