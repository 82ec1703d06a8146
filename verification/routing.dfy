/** How a data request finds its way over the nodes: up, across at most once, and down. */
module Routing {
  import opened Base
  import opened Domains
  import opened EndpointTables
  import opened NodeTables

  /** What a data request carries: the node it is for, the hop it came from and the nodes that passed it on. */
  datatype Letter = Letter(to: nat, src: nat, router: seq<nat>)

  /** A connection to a direct endpoint may be missing, may refuse the bytes, or take them. */
  datatype Link = Missing | Broken | Working

  /** The nodes with their tables, those with a global routing table, the connections, and the
      limit on hops that all of them share. */
  datatype Net = Net(nodes: map<nat, Tables>, global: set<nat>, links: (nat, nat) -> Link, ttl: nat)

  datatype Choice = To(peer: Peer) | Refused(code: Status)

  /** The direct endpoint through which `tid` is reached. */
  function Target(t: Tables, global: bool, tid: nat): Choice {
    if t.IsParentId(tid) then To(t.father.value)
    else if t.IsBrotherId(tid) then
      var p := FindChild(t.brothers, tid);
      if p.Some? && p.value.Holds(tid) then To(p.value)
      else if !global && t.father.Some? then To(t.father.value)
      else Refused(InvalidId)
    else if t.IsChildId(tid) then
      var p := FindChild(t.children, tid);
      if p.Some? && p.value.Holds(tid) then To(p.value) else Refused(InvalidId)
    else if t.father.Some? && !global then To(t.father.value)
    else Refused(NoConnection)
  }

  /** An endpoint of a table whose domain holds the id. */
  ghost predicate Holder(table: seq<Peer>, p: Peer, tid: nat) { p in table && p.Holds(tid) }

  ghost predicate Held(table: seq<Peer>, tid: nat) { exists p :: Holder(table, p, tid) }

  lemma FoundIff(table: seq<Peer>, tid: nat, p: Peer)
    requires Ordered(table)
    ensures FindChild(table, tid) == Some(p) <==> Holder(table, p, tid)
    ensures FindChild(table, tid).None? <==> !Held(table, tid)
  {
    FindIsScan(table, tid);
    if FindChild(table, tid).Some? {
      assert Holder(table, FindChild(table, tid).value, tid);
    }
  }

  /** Ids of brothers lie outside the node's domain, those of children inside, and neither is the father. */
  lemma HolderPlace(t: Tables, p: Peer, tid: nat)
    requires t.Ok()
    ensures Holder(t.brothers, p, tid) ==> !t.self.Holds(tid) && t.father != Some(p)
    ensures Holder(t.children, p, tid) ==> t.self.Holds(tid) && t.father != Some(p)
  {
    HoldsOwn(t.self);
    HoldsOwn(p);
    if t.father.Some? {
      FatherCovers(t);
    }
  }

  /** Which endpoint data for `tid` goes to, told by a scan of the tables. */
  lemma TargetIff(t: Tables, global: bool, tid: nat, p: Peer)
    requires t.Ok()
    ensures Target(t, global, tid) == To(p) <==>
              || (t.father == Some(p) && (tid == p.id || (!global && !t.self.Holds(tid) &&
                                                          !(p.Holds(tid) && Held(t.brothers, tid)))))
              || (!t.IsParentId(tid) && Holder(t.brothers, p, tid) && (t.father.None? || t.father.value.Holds(tid)))
              || (!t.IsParentId(tid) && Holder(t.children, p, tid))
  {
    BesideIff(t, tid);
    FoundIff(t.brothers, tid, p);
    FoundIff(t.children, tid, p);
    FoundIff(t.brothers, tid, FoundIn(t.brothers, tid));
    FoundIff(t.children, tid, FoundIn(t.children, tid));
    HolderPlace(t, p, tid);
  }

  /** And when it is refused, with which code. */
  lemma RefusedIff(t: Tables, global: bool, tid: nat, code: Status)
    requires t.Ok()
    ensures Target(t, global, tid) == Refused(code) <==>
              && !t.IsParentId(tid)
              && if t.self.Holds(tid) then code == InvalidId && !Held(t.children, tid)
                 else if t.father.None? || t.father.value.Holds(tid) then
                   code == InvalidId && !Held(t.brothers, tid) && (global || t.father.None?)
                 else code == NoConnection && global
  {
    BesideIff(t, tid);
    FoundIff(t.brothers, tid, FoundIn(t.brothers, tid));
    FoundIff(t.children, tid, FoundIn(t.children, tid));
  }

  /** The endpoint found, or any. */
  function FoundIn(table: seq<Peer>, tid: nat): Peer {
    match FindChild(table, tid)
    case Some(p) => p
    case None => Peer(0, 0)
  }

  /** What sending gives: the code, the target if one was chosen, and whether the letter was stamped. */
  datatype Sending = Sending(code: Status, target: Option<Peer>, stamped: bool)

  function SendMsg(net: Net, n: nat, tid: nat): Sending
    requires n in net.nodes
  {
    if tid == n then Sending(Success, None, false)
    else
      match Target(net.nodes[n], n in net.global, tid)
      case Refused(code) => Sending(code, None, false)
      case To(p) =>
        match net.links(n, p.id)
        case Missing => Sending(NoConnection, Some(p), false)
        case Broken => Sending(WriteFailed, Some(p), true)
        case Working => Sending(Success, Some(p), true)
  }

  /** Which code sending gives: that of the link to the target, or that of the refusal; the letter is stamped
      exactly when there is a connection. */
  lemma SendCodes(net: Net, n: nat, tid: nat)
    requires n in net.nodes && tid != n
    ensures var s, t, global := SendMsg(net, n, tid), net.nodes[n], n in net.global;
            && (forall p :: s.target == Some(p) <==> Target(t, global, tid) == To(p))
            && (forall code :: Target(t, global, tid) == Refused(code) ==> s == Sending(code, None, false))
            && (forall p :: Target(t, global, tid) == To(p) ==>
                  && (s.code == Success <==> net.links(n, p.id) == Working)
                  && (s.code == WriteFailed <==> net.links(n, p.id) == Broken)
                  && (s.code == NoConnection <==> net.links(n, p.id) == Missing)
                  && (s.stamped <==> net.links(n, p.id) != Missing))
  {
  }

  /** The letter after a node put itself on the router list and into the head. */
  function Stamped(m: Letter, n: nat, stamped: bool): Letter {
    if stamped then m.(src := n, router := m.router + [n]) else m
  }

  /** What becomes of a letter at a node; one that a node sends to itself while passing it on is dropped. */
  datatype Outcome = Delivered | Expired | Passed(next: nat, letter: Letter) | Failed(code: Status) | Dropped

  /** Whether the first attempt is followed by one through the father. */
  predicate Retries(t: Tables, m: Letter, first: Sending) {
    && first.code != Success && !t.IsParentId(m.src) && t.IsBrotherId(m.to)
    && t.father.Some? && (first.target.None? || !t.IsParentId(first.target.value.id))
  }

  function OutcomeOf(s: Sending, m: Letter): Outcome {
    if s.code != Success then Failed(s.code)
    else if s.target.None? then Dropped
    else Passed(s.target.value.id, m)
  }

  /** A node receives a data request. */
  function OnRequest(net: Net, n: nat, m: Letter): Outcome
    requires n in net.nodes
  {
    var t := net.nodes[n];
    if m.to == n then Delivered
    else if |m.router| >= net.ttl then Expired
    else
      var first := SendMsg(net, n, m.to);
      var m1 := Stamped(m, n, first.stamped);
      if Retries(t, m1, first) then
        var second := SendMsg(net, n, t.father.value.id);
        OutcomeOf(second, Stamped(m1, n, second.stamped))
      else OutcomeOf(first, m1)
  }

  /** A first attempt that is followed by one through the father: the target lies beside the node, is not the
      father, and is a brother that cannot be reached, or unknown to a node with a global table; and the letter
      does not come from the father, or the attempt has overwritten where it comes from. */
  ghost predicate GoesRound(net: Net, n: nat, m: Letter)
    requires n in net.nodes
  {
    var t := net.nodes[n];
    && t.father.Some? && !t.IsParentId(m.to) && Beside(t, m.to)
    && if Held(t.brothers, m.to) then
         exists p :: Holder(t.brothers, p, m.to) && !t.IsParentId(p.id) &&
                     match net.links(n, p.id)
                     case Working => false
                     case Broken => !t.IsParentId(n)
                     case Missing => !t.IsParentId(m.src)
       else n in net.global && !t.IsParentId(m.src)
  }

  lemma RetriesIff(net: Net, n: nat, m: Letter)
    requires n in net.nodes && net.nodes[n].Ok() && m.to != n
    ensures var first := SendMsg(net, n, m.to);
            Retries(net.nodes[n], Stamped(m, n, first.stamped), first) <==> GoesRound(net, n, m)
  {
    var t, global := net.nodes[n], n in net.global;
    var b := FoundIn(t.brothers, m.to);
    BesideIff(t, m.to);
    FoundIff(t.brothers, m.to, b);
    TargetIff(t, global, m.to, b);
    forall p ensures Holder(t.brothers, p, m.to) ==> p == b && t.father != Some(p) {
      FoundIff(t.brothers, m.to, p);
      HolderPlace(t, p, m.to);
    }
  }

  /** What becomes of a letter at a node, told by the links: it is delivered, or expires, or is passed on over the
      link to its target, or over that to the father, or fails with the code of the attempt made last. */
  lemma RequestIff(net: Net, n: nat, m: Letter)
    requires n in net.nodes && net.nodes[n].Ok()
    ensures OnRequest(net, n, m) == Delivered <==> m.to == n
    ensures OnRequest(net, n, m) == Expired <==> m.to != n && |m.router| >= net.ttl
    ensures m.to != n && |m.router| < net.ttl ==>
              var first, o := SendMsg(net, n, m.to), OnRequest(net, n, m);
              if GoesRound(net, n, m) then
                var f, tried := net.nodes[n].father.value.id, Stamped(m, n, first.stamped);
                && first.code != Success
                && (f != n ==>
                      o == match net.links(n, f)
                           case Working => Passed(f, Stamped(tried, n, true))
                           case Broken => Failed(WriteFailed)
                           case Missing => Failed(NoConnection))
              else if first.code == Success then
                first.target.Some? && o == Passed(first.target.value.id, Stamped(m, n, true))
              else o == Failed(first.code)
  {
    if m.to != n {
      RetriesIff(net, n, m);
      SendCodes(net, n, m.to);
      var t := net.nodes[n];
      if t.father.Some? && t.father.value.id != n {
        SendCodes(net, n, t.father.value.id);
        assert Target(t, n in net.global, t.father.value.id) == To(t.father.value);
      }
    }
  }

  /** The rewriting of the message in place. */
  class Message {
    const to: nat
    var src: nat
    var router: seq<nat>

    function Now(): Letter
      reads this
    {
      Letter(to, src, router)
    }

    constructor (m: Letter)
      ensures Now() == m
    {
      to, src, router := m.to, m.src, m.router;
    }
  }

  method SendData(net: Net, n: nat, tid: nat, m: Message) returns (code: Status, target: Option<Peer>)
    requires n in net.nodes
    modifies m
    ensures var s := SendMsg(net, n, tid);
            code == s.code && target == s.target && m.Now() == Stamped(old(m.Now()), n, s.stamped)
  {
    if tid == n {
      return Success, None;
    }
    var t, global := net.nodes[n], n in net.global;
    target := None;
    if t.father.Some? && t.IsParentId(tid) {
      target := t.father;
    } else if t.IsBrotherId(tid) {
      var p := FindChild(t.brothers, tid);
      if p.Some? && p.value.Holds(tid) {
        target := p;
      } else if !global && t.father.Some? {
        target := t.father;
      } else {
        return InvalidId, None;
      }
    } else if t.IsChildId(tid) {
      var p := FindChild(t.children, tid);
      if !(p.Some? && p.value.Holds(tid)) {
        return InvalidId, None;
      }
      target := p;
    } else if t.father.Some? && !global {
      target := t.father;
    }
    if target.None? || net.links(n, target.value.id).Missing? {
      return NoConnection, target;
    }
    m.router := m.router + [n];
    m.src := n;
    code := if net.links(n, target.value.id).Working? then Success else WriteFailed;
  }

  method Receive(net: Net, n: nat, m: Message) returns (outcome: Outcome)
    requires n in net.nodes
    modifies m
    ensures outcome == OnRequest(net, n, old(m.Now()))
    ensures outcome.Passed? ==> m.Now() == outcome.letter
  {
    if m.to == n {
      return Delivered;
    }
    if |m.router| >= net.ttl {
      return Expired;
    }
    var t := net.nodes[n];
    var res, target := SendData(net, n, m.to, m);
    if res != Success && !t.IsParentId(m.src) && t.IsBrotherId(m.to) {
      if t.father.Some? && (target.None? || !t.IsParentId(target.value.id)) {
        res, target := SendData(net, n, t.father.value.id, m);
      }
    }
    if res != Success {
      return Failed(res);
    }
    return if target.None? then Dropped else Passed(target.value.id, m.Now());
  }
}
