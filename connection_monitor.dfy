/**
 * The in-memory cache of provider connections kept by the connection-monitor
 * plugin (sql/wsrep_connection_monitor_plugin.cc): a list of connections
 * that the group-communication library reports as it opens and closes them.
 *
 * An entry is identified by its address alone: the scheme is stored but
 * never compared. The mutex around the list, the session set up for schema
 * access and the debug logging are not part of this model.
 */
module ConnectionMonitor {

  /** `wsrep_connection_t`. */
  datatype Connection = Connection(nodeUuid: string, addressScheme: string, address: string)

  /** The position of the first entry with address `addr`, or `|conns|` when there is none. */
  function FindAddress(conns: seq<Connection>, addr: string): (i: nat)
    ensures i <= |conns|
    ensures forall j :: 0 <= j < i ==> conns[j].address != addr
    ensures i < |conns| ==> conns[i].address == addr
    decreases |conns|
  {
    if conns == [] then 0
    else if conns[0].address == addr then 0
    else 1 + FindAddress(conns[1..], addr)
  }

  /** Some entry has address `addr`. */
  predicate HasAddress(conns: seq<Connection>, addr: string) {
    exists j :: 0 <= j < |conns| && conns[j].address == addr
  }

  /** No two entries share an address. */
  predicate UniqueAddresses(conns: seq<Connection>) {
    forall i, j :: 0 <= i < j < |conns| ==> conns[i].address != conns[j].address
  }

  /** The entries whose address is `addr`, counted. */
  function CountAddress(conns: seq<Connection>, addr: string): (n: nat)
    ensures n <= |conns|
    decreases |conns|
  {
    if conns == [] then 0
    else (if conns[0].address == addr then 1 else 0) + CountAddress(conns[1..], addr)
  }

  /** The list after `wsrep_connection_remove`: the first entry with that address is erased. */
  function Removed(conns: seq<Connection>, addr: string): (r: seq<Connection>)
    ensures HasAddress(conns, addr) ==> |r| == |conns| - 1
    ensures !HasAddress(conns, addr) ==> r == conns
    ensures multiset(r) <= multiset(conns)
  {
    FindAddressFound(conns, addr);
    var i := FindAddress(conns, addr);
    if i < |conns| then
      assert conns == conns[..i] + [conns[i]] + conns[i + 1..];
      conns[..i] + conns[i + 1..]
    else conns
  }

  /** The entry `wsrep_connection_add` appends: no node UUID yet. */
  function NewConnection(scheme: string, addr: string): (c: Connection) {
    Connection("", scheme, addr)
  }

  /** The list after `wsrep_connection_add`: a new entry at the back unless the address is known. */
  function Added(conns: seq<Connection>, scheme: string, addr: string): (r: seq<Connection>)
    ensures conns <= r && |r| <= |conns| + 1
    ensures HasAddress(r, addr)
  {
    if FindAddress(conns, addr) < |conns| then conns
    else
      var r := conns + [NewConnection(scheme, addr)];
      assert r[|conns|].address == addr;
      r
  }

  /** The search finds an entry exactly when one has the address. */
  lemma FindAddressFound(conns: seq<Connection>, addr: string)
    ensures FindAddress(conns, addr) < |conns| <==> HasAddress(conns, addr)
  {
    if HasAddress(conns, addr) {
      var j :| 0 <= j < |conns| && conns[j].address == addr;
      assert FindAddress(conns, addr) <= j;
    }
  }

  lemma {:induction false} CountAddressAppend(a: seq<Connection>, b: seq<Connection>, addr: string)
    ensures CountAddress(a + b, addr) == CountAddress(a, addr) + CountAddress(b, addr)
    decreases |a|
  {
    if a == [] {
      assert a + b == b;
    } else {
      assert (a + b)[0] == a[0] && (a + b)[1..] == a[1..] + b;
      CountAddressAppend(a[1..], b, addr);
    }
  }

  /** Removing erases exactly one entry with the address when there is one, and nothing else. */
  lemma RemovedCount(conns: seq<Connection>, addr: string)
    ensures HasAddress(conns, addr) ==>
      |Removed(conns, addr)| == |conns| - 1 &&
      CountAddress(Removed(conns, addr), addr) == CountAddress(conns, addr) - 1
    ensures !HasAddress(conns, addr) ==> Removed(conns, addr) == conns
  {
    FindAddressFound(conns, addr);
    var i := FindAddress(conns, addr);
    if i < |conns| {
      assert conns == conns[..i] + [conns[i]] + conns[i + 1..];
      CountAddressAppend(conns[..i] + [conns[i]], conns[i + 1..], addr);
      CountAddressAppend(conns[..i], [conns[i]], addr);
      CountAddressAppend(conns[..i], conns[i + 1..], addr);
    }
  }

  /** Removing keeps the other entries in their order. */
  lemma RemovedKeepsOrder(conns: seq<Connection>, addr: string)
    requires HasAddress(conns, addr)
    ensures var i := FindAddress(conns, addr);
      && Removed(conns, addr)[..i] == conns[..i]
      && Removed(conns, addr)[i..] == conns[i + 1..]
  {
    FindAddressFound(conns, addr);
  }

  /** With unique addresses, removing leaves no entry with that address. */
  lemma RemovedLeavesNone(conns: seq<Connection>, addr: string)
    requires UniqueAddresses(conns)
    ensures !HasAddress(Removed(conns, addr), addr)
  {
    FindAddressFound(conns, addr);
    var i := FindAddress(conns, addr);
    var r := Removed(conns, addr);
    if i < |conns| {
      forall j | 0 <= j < |r|
        ensures r[j].address != addr
      {
        if j >= i {
          assert r[j] == conns[j + 1];
        }
      }
    }
  }

  /** After adding, the address is known, and adding again changes nothing. */
  lemma AddedIdempotent(conns: seq<Connection>, scheme: string, scheme': string, addr: string)
    ensures HasAddress(Added(conns, scheme, addr), addr)
    ensures Added(Added(conns, scheme, addr), scheme', addr) == Added(conns, scheme, addr)
  {
    var a := Added(conns, scheme, addr);
    FindAddressFound(conns, addr);
    FindAddressFound(a, addr);
    if FindAddress(conns, addr) == |conns| {
      assert a[|conns|].address == addr;
    }
  }

  /** Adding a known address changes nothing; adding a new one appends one entry. */
  lemma AddedNewOrKnown(conns: seq<Connection>, scheme: string, addr: string)
    ensures HasAddress(conns, addr) ==> Added(conns, scheme, addr) == conns
    ensures !HasAddress(conns, addr) ==> Added(conns, scheme, addr) == conns + [Connection("", scheme, addr)]
  {
    FindAddressFound(conns, addr);
  }

  /** Adding a new address and then removing it gives back the list. */
  lemma RemoveUndoesAdd(conns: seq<Connection>, scheme: string, addr: string)
    requires !HasAddress(conns, addr)
    ensures Removed(Added(conns, scheme, addr), addr) == conns
  {
    FindAddressFound(conns, addr);
    var a := Added(conns, scheme, addr);
    assert a == conns + [NewConnection(scheme, addr)];
    assert FindAddress(a, addr) == |conns| by {
      assert a[|conns|].address == addr;
      assert forall j :: 0 <= j < |conns| ==> a[j] == conns[j];
    }
    assert a[..|conns|] == conns;
  }

  /** Both operations keep the addresses unique. */
  lemma UniquePreserved(conns: seq<Connection>, scheme: string, addr: string)
    requires UniqueAddresses(conns)
    ensures UniqueAddresses(Added(conns, scheme, addr))
    ensures UniqueAddresses(Removed(conns, addr))
  {
    AddedKeepsUnique(conns, scheme, addr);
    RemovedKeepsUnique(conns, addr);
  }

  lemma AddedKeepsUnique(conns: seq<Connection>, scheme: string, addr: string)
    requires UniqueAddresses(conns)
    ensures UniqueAddresses(Added(conns, scheme, addr))
  {
    FindAddressFound(conns, addr);
    if !HasAddress(conns, addr) {
      var a := Added(conns, scheme, addr);
      assert a == conns + [NewConnection(scheme, addr)];
      forall p, q | 0 <= p < q < |a|
        ensures a[p].address != a[q].address
      {
        assert a[p] == conns[p];
        if q < |conns| {
          assert a[q] == conns[q];
        }
      }
    }
  }

  lemma RemovedKeepsUnique(conns: seq<Connection>, addr: string)
    requires UniqueAddresses(conns)
    ensures UniqueAddresses(Removed(conns, addr))
  {
    var i := FindAddress(conns, addr);
    if i < |conns| {
      var r := Removed(conns, addr);
      assert r == conns[..i] + conns[i + 1..];
      forall p, q | 0 <= p < q < |r|
        ensures r[p].address != r[q].address
      {
        EraseIndex(conns, i, p);
        EraseIndex(conns, i, q);
      }
    }
  }

  /** The entries of a list with index `i` erased: those before `i`, then those after it. */
  lemma EraseIndex(conns: seq<Connection>, i: nat, p: nat)
    requires i < |conns| && p < |conns| - 1
    ensures (conns[..i] + conns[i + 1..])[p] == conns[if p < i then p else p + 1]
  {
    if p < i {
      assert (conns[..i] + conns[i + 1..])[p] == conns[..i][p];
    } else {
      assert (conns[..i] + conns[i + 1..])[p] == conns[i + 1..][p - i];
    }
  }

  /** `wsrep_connections`: the process-wide list of connections. */
  class ConnectionCache {
    var connections: seq<Connection>

    /** The list starts empty. */
    constructor ()
      ensures connections == []
    {
      connections := [];
    }

    /** `wsrep_connection_remove(scheme, addr)`: the scheme plays no part. */
    method Remove(scheme: string, addr: string)
      modifies this
      ensures connections == Removed(old(connections), addr)
      ensures HasAddress(old(connections), addr) ==> |connections| == |old(connections)| - 1
      ensures !HasAddress(old(connections), addr) ==> connections == old(connections)
    {
      RemovedCount(connections, addr);
      var i := 0;
      while i < |connections|
        invariant 0 <= i <= |connections|
        invariant connections == old(connections)
        invariant forall j :: 0 <= j < i ==> connections[j].address != addr
        decreases |connections| - i
      {
        if connections[i].address == addr {
          assert i == FindAddress(connections, addr);
          connections := connections[..i] + connections[i + 1..];
          return;
        }
        i := i + 1;
      }
      assert i == FindAddress(connections, addr);
    }

    /** `wsrep_connection_add(scheme, addr)`. */
    method Add(scheme: string, addr: string)
      modifies this
      ensures connections == Added(old(connections), scheme, addr)
      ensures HasAddress(connections, addr)
      ensures HasAddress(old(connections), addr) ==> connections == old(connections)
    {
      AddedIdempotent(connections, scheme, scheme, addr);
      AddedNewOrKnown(connections, scheme, addr);
      var i := 0;
      while i < |connections|
        invariant 0 <= i <= |connections|
        invariant forall j :: 0 <= j < i ==> connections[j].address != addr
        decreases |connections| - i
      {
        if connections[i].address == addr {
          break;  // found
        }
        i := i + 1;
      }
      assert i == FindAddress(connections, addr);
      if i == |connections| {
        var newConnection := Connection("", scheme, addr);
        connections := connections + [newConnection];
      }
    }
  }
}
