/** Endpoints and their connections: how they bind, and how a reset takes the bindings apart. */
module ResetGraph {
  import opened Base

  datatype ConnState = Disconnected | Connecting | Handshaking | Connected | Disconnecting

  /** The state of a connection that has been closed, unless that is under way already. */
  function Closed(s: ConnState): ConnState { if s == Disconnecting then Disconnecting else Disconnected }

  class Connection {
    var binding: Endpoint?
    var resetting: bool
    var state: ConnState

    constructor ()
      ensures binding == null && !resetting && state == Disconnected
    {
      binding, resetting, state := null, false, Disconnected;
    }

    /** Closes the connection, once: a second call finds it closed, a call from within one does nothing. */
    method Disconnect() returns (status: Status)
      modifies this`state
      ensures state == Closed(old(state)) == if old(state).Disconnecting? then Disconnecting else Disconnected
      ensures status == if old(state).Disconnected? then NotInited else Success
    {
      if state == Disconnected {
        return NotInited;
      }
      if state == Disconnecting {
        return Success;
      }
      state := Disconnecting;
      state := Disconnected;
      return Success;
    }

    /** Closes the connection and takes it off its endpoint. */
    method Reset(ghost g: Graph, ghost busy: set<object>)
      requires this in g.cs && g.Tied() && g.Busy(busy) && g.Ready(binding, this)
      modifies g.es, g.cs
      ensures g.Tied() && g.Busy(busy)
      ensures if old(resetting) then g.AllKept()
              else
                && binding == null && g.Detached(old(binding), this)
                && state == Closed(old(state)) && g.OthersClosed(old(binding), this)
      decreases g.es + g.cs - busy, 1
    {
      if resetting {
        return;
      }
      resetting := true;
      var status := Disconnect();
      if binding != null {
        var removed := binding.RemoveConnection(this, g, busy + {this});
        assert binding == null;
      }
      resetting := false;
    }
  }

  class Endpoint {
    var ctrl: Connection?
    var data: seq<Connection>
    var resetting: bool

    constructor ()
      ensures ctrl == null && data == [] && !resetting
    {
      ctrl, data, resetting := null, [], false;
    }

    ghost predicate Linked(c: Connection)
      reads this
    {
      ctrl == c || c in data
    }

    /** Binds a free connection, as the control connection if there is none yet. */
    method AddConnection(conn: Connection, forceData: bool, ghost g: Graph) returns (added: bool)
      requires this in g.es && conn in g.cs && g.Tied()
      requires forall e :: e in g.es && e.Linked(conn) && e != this ==> conn.binding == e
      modifies this, conn
      ensures g.Tied() && resetting == old(resetting) && conn.resetting == old(conn.resetting)
      ensures added == (!resetting && (old(conn.binding) == null || old(conn.binding) == this))
      ensures if added then conn.binding == this && Linked(conn) else conn.binding == old(conn.binding)
      ensures if added && old(conn.binding) == null then
                if forceData || old(ctrl) != null then ctrl == old(ctrl) && data == old(data) + [conn]
                else ctrl == conn && data == old(data)
              else ctrl == old(ctrl) && data == old(data)
      ensures conn.state == if added && old(conn.binding) == null && old(conn.state) == Handshaking then Connected
                            else old(conn.state)
    {
      if resetting {
        return false;
      }
      if conn.binding == this {
        return true;
      }
      if conn.binding != null {
        return false;
      }
      Bind(conn, forceData || ctrl != null, g);
      if conn.state == Handshaking {
        conn.state := Connected;
      }
      return true;
    }

    method Bind(conn: Connection, asData: bool, ghost g: Graph)
      requires this in g.es && conn in g.cs && g.Tied() && !resetting && conn.binding == null
      requires !asData ==> ctrl == null
      requires forall e :: e in g.es ==> !e.Linked(conn)
      modifies this`ctrl, this`data, conn`binding
      ensures g.Tied() && conn.binding == this
      ensures if asData then ctrl == old(ctrl) && data == old(data) + [conn] else ctrl == conn && data == old(data)
    {
      if asData {
        DistinctMore(data, conn);
        data := data + [conn];
      } else {
        ctrl := conn;
      }
      conn.binding := this;
    }

    /** Lets go of a connection. The control connection and the last data connection take all others with them. */
    method RemoveConnection(conn: Connection, ghost g: Graph, ghost busy: set<object>) returns (removed: bool)
      requires this in g.es && conn in g.cs && conn.binding == this && g.Tied() && g.Busy(busy) && g.Ready(this, conn)
      modifies g.es, g.cs
      ensures removed && g.Tied() && g.Busy(busy) && conn.binding == null && g.Detached(this, conn)
      ensures conn.state == old(conn.state) && g.OthersClosed(this, conn)
      decreases g.es + g.cs - busy, 3
    {
      if resetting {
        conn.binding := null;
        return true;
      }
      if conn == ctrl {
        Reset(g, busy);
        return true;
      }
      Erase(conn, g);
      if data == [] {
        Reset(g, busy);
      }
      return true;
    }

    /** Takes a data connection off the list. */
    method Erase(conn: Connection, ghost g: Graph)
      requires this in g.es && conn in g.cs && conn.binding == this && conn != ctrl && g.Tied() && !resetting
      modifies this`data, conn`binding
      ensures g.Tied() && conn.binding == null && |data| == |old(data)| - 1
      ensures forall c :: c in data <==> c in old(data) && c != conn
    {
      var i := IndexOf(conn);
      ghost var less := Less(data, i);
      assert Linked(conn);
      conn.binding := null;
      data := data[..i] + data[i + 1..];
      assert data == less;
      assert forall c :: c in g.cs && old(Linked(c)) && c != conn ==> Linked(c);
    }

    method IndexOf(conn: Connection) returns (i: nat)
      requires conn in data
      ensures i < |data| && data[i] == conn
    {
      i := 0;
      while data[i] != conn
        invariant i < |data| && conn in data[i..]
        decreases |data| - i
      {
        i := i + 1;
      }
    }

    /** Lets go of every connection. */
    method Reset(ghost g: Graph, ghost busy: set<object>)
      requires this in g.es && g.Tied() && g.Busy(busy) && (!resetting ==> forall c :: c in data ==> !c.resetting)
      modifies g.es, g.cs
      ensures g.Tied() && g.Busy(busy)
      ensures if old(resetting) then g.AllKept() else g.Emptied(this) && g.OthersKept(this) && g.DataClosed(this)
      decreases g.es + g.cs - busy, 2
    {
      if resetting {
        return;
      }
      resetting := true;
      FreeAll(g, busy + {this});
      Forget(g);
    }

    /** Frees every connection, the control connection first. */
    method FreeAll(ghost g: Graph, ghost busy: set<object>)
      requires this in g.es && g.Tied() && g.Busy(busy) && resetting && forall c :: c in data ==> !c.resetting
      modifies g.es, g.cs
      ensures g.Tied() && g.Busy(busy) && ctrl == null && data == old(data) && g.OthersKept(this) && g.DataClosed(this)
      ensures forall c :: c in g.cs && old(Linked(c)) ==> c.binding == null
      decreases g.es + g.cs - busy, 3
    {
      FreeControl(g);
      FreeData(g, busy);
    }

    /** Ends a reset: the freed connections leave the list. */
    method Forget(ghost g: Graph)
      requires this in g.es && g.Tied() && ctrl == null && forall c :: c in data ==> c.binding == null
      modifies this`data, this`resetting
      ensures g.Tied() && data == [] && !resetting
    {
      data := [];
      resetting := false;
    }

    method FreeControl(ghost g: Graph)
      requires this in g.es && g.Tied()
      modifies this`ctrl, g.cs`binding
      ensures g.Tied() && ctrl == null && (old(ctrl) != null ==> old(ctrl).binding == null)
      ensures forall c :: c in g.cs && c != old(ctrl) ==> c.binding == old(c.binding)
    {
      if ctrl != null {
        ctrl.binding := null;
        ctrl := null;
      }
    }

    /** Resets each data connection in turn; each comes back to this endpoint, which lets it go. */
    method FreeData(ghost g: Graph, ghost busy: set<object>)
      requires this in g.es && g.Tied() && g.Busy(busy) && resetting && ctrl == null
      requires forall c :: c in data ==> !c.resetting
      modifies g.es, g.cs
      ensures g.Tied() && g.Busy(busy) && ctrl == null && data == old(data) && g.OthersKept(this)
      ensures g.DataClosed(this) && forall c :: c in data ==> c.binding == null
      decreases g.es + g.cs - busy, 2
    {
      var i := 0;
      while i < |data|
        invariant i <= |data| && data == old(data) && ctrl == null
        invariant g.Tied() && g.Busy(busy) && g.OthersKept(this)
        invariant forall j :: 0 <= j < i ==> data[j].binding == null
        invariant forall d :: d in g.cs ==>
                    d.state == if d in data[..i] then Closed(old(d.state)) else old(d.state)
      {
        data[i].Reset(g, busy);
        InPrefix(data, i);
        i := i + 1;
      }
    }
  }

  ghost predicate Distinct(s: seq<Connection>)
    decreases s
  {
    s != [] ==> s[0] !in s[1..] && Distinct(s[1..])
  }

  lemma InPrefix(s: seq<Connection>, i: nat)
    requires i < |s|
    ensures forall d :: d in s[..i + 1] <==> d in s[..i] || d == s[i]
  {
    assert s[..i + 1] == s[..i] + [s[i]];
  }

  lemma {:induction false} DistinctMore(s: seq<Connection>, c: Connection)
    requires Distinct(s) && c !in s
    ensures Distinct(s + [c])
    decreases s
  {
    if s != [] {
      assert (s + [c])[1..] == s[1..] + [c];
      DistinctMore(s[1..], c);
    } else {
      assert [c][1..] == [];
    }
  }

  lemma {:induction false} DistinctLess(s: seq<Connection>, i: nat)
    requires Distinct(s) && i < |s|
    ensures var t := s[..i] + s[i + 1..]; Distinct(t) && forall c :: c in t <==> c in s && c != s[i]
    decreases s
  {
    var t := s[..i] + s[i + 1..];
    if i == 0 {
      assert t == s[1..];
    } else {
      var u := s[1..][..i - 1] + s[1..][i..];
      DistinctLess(s[1..], i - 1);
      assert t == [s[0]] + u && t[1..] == u;
    }
  }

  lemma Less(s: seq<Connection>, i: nat) returns (t: seq<Connection>)
    requires Distinct(s) && i < |s|
    ensures t == s[..i] + s[i + 1..] && Distinct(t) && |t| == |s| - 1
    ensures forall c :: c in t <==> c in s && c != s[i]
  {
    t := s[..i] + s[i + 1..];
    DistinctLess(s, i);
  }

  /** When nothing is being reset, a connection is bound to an endpoint exactly when that has it as its
      control connection or lists it, once, among its data connections. */
  lemma BoundIff(g: Graph, e: Endpoint, c: Connection)
    requires g.Tied() && g.Busy({}) && e in g.es && c in g.cs
    ensures c.binding == e <==> e.ctrl == c || c in e.data
    ensures e.ctrl == c ==> c !in e.data
    ensures forall i, j :: 0 <= i < j < |e.data| ==> e.data[i] != e.data[j]
  {
    assert c.binding == e ==> e.Linked(c);
    assert e.ctrl == c || c in e.data ==> e.Linked(c);
    forall i, j | 0 <= i < j < |e.data| ensures e.data[i] != e.data[j] {
      DistinctAt(e.data, i, j);
    }
  }

  lemma {:induction false} DistinctAt(s: seq<Connection>, i: nat, j: nat)
    requires Distinct(s) && i < j < |s|
    ensures s[i] != s[j]
    decreases s
  {
    if i > 0 {
      DistinctAt(s[1..], i - 1, j - 1);
    } else {
      assert s[j] == s[1..][j - 1];
    }
  }

  /** Every endpoint and connection there is. */
  datatype Graph = Graph(es: set<Endpoint>, cs: set<Connection>) {
    /** An endpoint lists each of its connections once. */
    ghost predicate Listed(e: Endpoint)
      reads e
    {
      && (e.ctrl != null ==> e.ctrl in cs && e.ctrl !in e.data)
      && (forall c :: c in e.data ==> c in cs)
      && Distinct(e.data)
    }

    /** A connection is bound to an endpoint exactly when that lists it; only while the endpoint is being
        reset may it list connections that are free already. */
    ghost predicate Tied()
      reads es, cs
    {
      && (forall e :: e in es ==> Listed(e))
      && (forall c :: c in cs && c.binding != null ==> c.binding in es && c.binding.Linked(c))
      && (forall e, c :: e in es && c in cs && e.Linked(c) && c.binding != e ==>
            e.resetting && c.binding == null)
    }

    /** The objects being reset. */
    ghost predicate Busy(busy: set<object>)
      reads es, cs
    {
      && (forall e :: e in es ==> (e.resetting <==> e in busy))
      && (forall c :: c in cs ==> (c.resetting <==> c in busy))
    }

    /** No other data connection of the endpoint is being reset. */
    ghost predicate Ready(e: Endpoint?, c: Connection)
      reads es, cs
    {
      e != null && e in es && !e.resetting ==> forall d :: d in e.data && d in cs && d != c ==> !d.resetting
    }

    twostate predicate AllKept()
      reads es, cs
    {
      && (forall e :: e in es ==> e.ctrl == old(e.ctrl) && e.data == old(e.data))
      && (forall c :: c in cs ==> c.binding == old(c.binding) && c.state == old(c.state))
    }

    /** The data connections of the endpoint are closed, and all others keep their state. */
    twostate predicate DataClosed(e: Endpoint)
      reads es, cs, e
    {
      forall d :: d in cs ==> d.state == if d in old(e.data) then Closed(old(d.state)) else old(d.state)
    }

    /** Of the connections other than `c`, those are closed that are data connections of the endpoint that `c`
        controls, unless this is being reset already; all others keep their state. */
    twostate predicate OthersClosed(e: Endpoint?, c: Connection)
      reads es, cs
    {
      forall d :: d in cs && d != c ==>
        d.state == if e != null && e in es && !old(e.resetting) && old(e.ctrl) == c && d in old(e.data)
                   then Closed(old(d.state)) else old(d.state)
    }

    /** Other endpoints keep their lists, and connections not of this endpoint keep their binding. */
    twostate predicate OthersKept(e: Endpoint)
      reads es, cs, e
    {
      && (forall x :: x in es && x != e ==> x.ctrl == old(x.ctrl) && x.data == old(x.data))
      && (forall d :: d in cs && !old(e.Linked(d)) ==> d.binding == old(d.binding))
    }

    /** The endpoint lists nothing, and all it listed are free. */
    twostate predicate Emptied(e: Endpoint)
      reads es, cs, e
    {
      e.ctrl == null && e.data == [] && forall d :: d in cs && old(e.Linked(d)) ==> d.binding == null
    }

    /** Connection `c` has been taken off endpoint `e`. */
    twostate predicate Detached(e: Endpoint?, c: Connection)
      reads es, cs
    {
      && (forall x :: x in es && x != e ==> x.ctrl == old(x.ctrl) && x.data == old(x.data))
      && (forall d :: d in cs && d != c && (e == null || e !in es || !old(e.Linked(d))) ==> d.binding == old(d.binding))
      && (e != null && e in es ==>
            if old(e.resetting) then
              && e.ctrl == old(e.ctrl) && e.data == old(e.data)
              && forall d :: d in cs && d != c ==> d.binding == old(d.binding)
            else if old(e.ctrl) == c || old(e.data) == [c] then Emptied(e)
            else
              && e.ctrl == old(e.ctrl) && |e.data| == |old(e.data)| - 1
              && (forall d :: d in cs ==> (d in e.data <==> d in old(e.data) && d != c))
              && forall d :: d in cs && d != c ==> d.binding == old(d.binding))
    }
  }
}
