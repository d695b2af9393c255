/**
 * The certification-key audit (sql/wsrep_key_check.cc): every metadata lock
 * held by the session is checked against the certification keys of its
 * replicated transaction, and a missing key is reported as a warning.
 *
 * The MDL subsystem and `mdl_iterate` are not part of this model: the locks
 * are given as a sequence of tickets, visited in order, and the
 * transaction's `has_key` is membership in a set of keys.
 */
module KeyCheck {
  import opened Common
  import opened CString

  type ThdId = nat

  /** The namespace of an MDL key; only the table namespace matters here. */
  datatype MdlNamespace = Table | OtherNamespace(code: nat)

  /** A lock ticket: the namespace and names of its key, its owner and its lock type's name. */
  datatype MdlTicket = MdlTicket(ns: MdlNamespace, owner: ThdId, db: string, name: string, typeName: string)

  /** A ticket as `mdl_iterate` hands it over: granted, or still waiting. */
  datatype Visit = Visit(ticket: MdlTicket, granted: bool)

  /** The access mode of a provider key. */
  datatype KeyType = Shared | Reference | Update | Exclusive

  /** A provider key: its mode and its parts. */
  datatype WsrepKey = WsrepKey(keyType: KeyType, parts: seq<string>)

  /** The warning logged for a lock with no certification key. */
  datatype Warning = Warning(db: string, name: string, typeName: string, query: string)

  /** What `check_key_for_ticket` does: the value it returns and the warning it logs, if any. */
  datatype CheckResult = CheckResult(ret: int, warning: Option<Warning>)

  const PerformanceSchema: string := "performance_schema"
  const GtidSlavePos: string := "gtid_slave_pos"

  /** The key names of a ticket are C strings. */
  predicate WellFormedTicket(t: MdlTicket) {
    NoNul(t.db) && NoNul(t.name)
  }

  /** The shared, two-part key `(db, name)` that a table lock calls for. */
  function KeyFor(t: MdlTicket): (k: WsrepKey)
    ensures k.keyType == Shared && |k.parts| == 2 && k.parts[0] == t.db && k.parts[1] == t.name
  {
    WsrepKey(Shared, [t.db, t.name])
  }

  /**
   * A ticket the audit leaves alone: not granted, not a table lock, owned
   * by another session, in a schema whose name is a prefix of
   * `performance_schema` (the empty name included), or on a table whose
   * name is a prefix of `gtid_slave_pos`, whatever its schema.
   */
  predicate Exempt(t: MdlTicket, granted: bool, thd: ThdId) {
    || !granted
    || t.ns != Table
    || t.owner != thd
    || IsPrefix(t.db, PerformanceSchema)
    || IsPrefix(t.name, GtidSlavePos)
  }

  /** For names without NUL, the prefix form of the exemption is the source's chain of guards. */
  lemma ExemptIsGuardChain(t: MdlTicket, granted: bool, thd: ThdId)
    requires WellFormedTicket(t)
    ensures Exempt(t, granted, thd) <==>
      || !granted
      || t.ns != Table
      || thd != t.owner
      || StrNCmpZero(PerformanceSchema, t.db, |t.db|)
      || StrNCmpZero(GtidSlavePos, t.name, |t.name|)
  {
    StrNCmpZeroWhenPrefixOf(PerformanceSchema, t.db);
    StrNCmpZeroWhenPrefixOf(GtidSlavePos, t.name);
  }

  /**
   * `check_key_for_ticket`: the chain of guards of the source, with the
   * `strncmp` calls bounded by the lengths of the ticket's names, then the
   * membership test of the key built from the ticket.
   */
  function CheckKeyForTicket(t: MdlTicket, granted: bool, thd: ThdId, keys: set<WsrepKey>,
                             query: string): (r: CheckResult)
    requires WellFormedTicket(t)
    ensures r.ret == 0
    ensures r.warning.Some? <==> !Exempt(t, granted, thd) && KeyFor(t) !in keys
    ensures r.warning.Some? ==> r.warning.value == Warning(t.db, t.name, t.typeName, query)
  {
    ExemptIsGuardChain(t, granted, thd);
    if !granted then CheckResult(0, None)
    else if t.ns != Table then CheckResult(0, None)
    else if thd != t.owner then CheckResult(0, None)
    else if StrNCmpZero(PerformanceSchema, t.db, |t.db|) then CheckResult(0, None)
    else if StrNCmpZero(GtidSlavePos, t.name, |t.name|) then CheckResult(0, None)
    else
      var key := WsrepKey(Shared, [t.db] + [t.name]);
      assert key == KeyFor(t);
      if key !in keys then CheckResult(0, Some(Warning(t.db, t.name, t.typeName, query)))
      else CheckResult(0, None)
  }

  /** The warning a ticket that is not exempt and has no key gets. */
  function WarningFor(t: MdlTicket, query: string): (w: Warning) {
    Warning(t.db, t.name, t.typeName, query)
  }

  /** A ticket the audit warns about. */
  predicate Offending(v: Visit, thd: ThdId, keys: set<WsrepKey>) {
    !Exempt(v.ticket, v.granted, thd) && KeyFor(v.ticket) !in keys
  }

  /** Reference definition: the warnings for the offending tickets, in the order they are visited. */
  function OffendingWarnings(tickets: seq<Visit>, thd: ThdId, keys: set<WsrepKey>, query: string): (r: seq<Warning>)
    ensures |r| <= |tickets|
    decreases |tickets|
  {
    if tickets == [] then []
    else
      (if Offending(tickets[0], thd, keys) then [WarningFor(tickets[0].ticket, query)] else [])
      + OffendingWarnings(tickets[1..], thd, keys, query)
  }

  /**
   * `wsrep_check_keys`: `mdl_iterate` hands every ticket to the check in
   * turn and would stop at the first non-zero answer; since the check always
   * answers 0, every ticket is visited and the warnings logged are those of
   * the offending tickets, in order.
   */
  function CheckKeys(tickets: seq<Visit>, thd: ThdId, keys: set<WsrepKey>, query: string): (r: seq<Warning>)
    requires forall k :: 0 <= k < |tickets| ==> WellFormedTicket(tickets[k].ticket)
    ensures r == OffendingWarnings(tickets, thd, keys, query)
    ensures |r| <= |tickets|
    decreases |tickets|
  {
    if tickets == [] then []
    else
      var v := tickets[0];
      var res := CheckKeyForTicket(v.ticket, v.granted, thd, keys, query);
      var here := if res.warning.Some? then [res.warning.value] else [];
      if res.ret != 0 then here
      else here + CheckKeys(tickets[1..], thd, keys, query)
  }

  /** Every offending ticket is reported, and every report comes from an offending ticket. */
  lemma {:induction false} OffendingWarningsExact(tickets: seq<Visit>, thd: ThdId, keys: set<WsrepKey>, query: string)
    ensures forall v :: v in tickets && Offending(v, thd, keys) ==>
      WarningFor(v.ticket, query) in OffendingWarnings(tickets, thd, keys, query)
    ensures forall w :: w in OffendingWarnings(tickets, thd, keys, query) ==>
      exists v :: v in tickets && Offending(v, thd, keys) && w == WarningFor(v.ticket, query)
    decreases |tickets|
  {
    if tickets != [] {
      OffendingWarningsExact(tickets[1..], thd, keys, query);
      var rest := OffendingWarnings(tickets[1..], thd, keys, query);
      assert forall u :: u in tickets ==> u == tickets[0] || u in tickets[1..];
      forall w | w in OffendingWarnings(tickets, thd, keys, query)
        ensures exists v :: v in tickets && Offending(v, thd, keys) && w == WarningFor(v.ticket, query)
      {
        if w in rest {
          var v :| v in tickets[1..] && Offending(v, thd, keys) && w == WarningFor(v.ticket, query);
          assert v in tickets;
        } else {
          assert tickets[0] in tickets;
        }
      }
    }
  }

  /** A lock on an exempt schema never draws a warning, whatever keys the transaction holds. */
  lemma ExemptSchemaNeverWarns(t: MdlTicket, granted: bool, thd: ThdId, keys: set<WsrepKey>, query: string)
    requires WellFormedTicket(t) && t.db == PerformanceSchema
    ensures CheckKeyForTicket(t, granted, thd, keys, query).warning.None?
  {
    assert t.db[..|t.db|] == t.db;
  }

  /**
   * The comparisons are bounded by the ticket's name lengths, so a name that
   * is only a beginning of the exempt one is exempt too: a table `gtid` in
   * any schema draws no warning, even without its key.
   */
  lemma ShortTableNameNeverWarns(t: MdlTicket, granted: bool, thd: ThdId, keys: set<WsrepKey>, query: string)
    requires WellFormedTicket(t) && t.name == "gtid"
    ensures CheckKeyForTicket(t, granted, thd, keys, query).warning.None?
  {
    assert GtidSlavePos[..4] == "gtid";
  }

  /** A table lock held with its key among the transaction's keys draws no warning. */
  lemma KeyedLockNeverWarns(t: MdlTicket, granted: bool, thd: ThdId, keys: set<WsrepKey>, query: string)
    requires WellFormedTicket(t) && WsrepKey(Shared, [t.db, t.name]) in keys
    ensures CheckKeyForTicket(t, granted, thd, keys, query).warning.None?
  {
  }

  /**
   * Adding keys can only silence warnings: a transaction whose key set
   * grows never draws a warning it did not draw before.
   */
  lemma {:induction false} MoreKeysFewerWarnings(tickets: seq<Visit>, thd: ThdId,
                                                 keys: set<WsrepKey>, more: set<WsrepKey>, query: string)
    requires forall k :: 0 <= k < |tickets| ==> WellFormedTicket(tickets[k].ticket)
    requires keys <= more
    ensures |CheckKeys(tickets, thd, more, query)| <= |CheckKeys(tickets, thd, keys, query)|
    ensures forall w :: w in CheckKeys(tickets, thd, more, query) ==> w in CheckKeys(tickets, thd, keys, query)
    decreases |tickets|
  {
    if tickets != [] {
      MoreKeysFewerWarnings(tickets[1..], thd, keys, more, query);
    }
  }
}
