/**
 * The group-commit order tail (`wsrep_register_for_group_commit`,
 * `wsrep_unregister_from_group_commit` and `wsrep_commit_will_write_binlog`
 * in sql/wsrep_binlog.cc).
 *
 * Sessions and their `wait_for_commit` handles live in one arena and share
 * ids: session `t` owns handle `t` (its `wsrep_wfc`). A handle's `prior` is
 * the handle it waits for; a session's `waitPtr` is its
 * `wait_for_commit_ptr`; `tail` is the process-wide `commit_order_tail`.
 * Every mutation of the tail happens inside the one critical section of
 * `LOCK_wsrep_group_commit`, so the lock itself is not modelled.
 */
module GroupCommit {
  import opened Common

  type Id = nat

  /** The value-level state the class below keeps in its fields. */
  datatype CommitQueue = CommitQueue(tail: Option<Id>, prior: seq<Option<Id>>, waitPtr: seq<Option<Id>>)

  predicate InRange(o: Option<Id>, n: nat) {
    o.Some? ==> o.value < n
  }

  /** Every link names a handle of the arena. */
  predicate WellFormed(q: CommitQueue) {
    && |q.waitPtr| == |q.prior|
    && InRange(q.tail, |q.prior|)
    && (forall i :: 0 <= i < |q.prior| ==> InRange(q.prior[i], |q.prior|))
    && (forall i :: 0 <= i < |q.waitPtr| ==> InRange(q.waitPtr[i], |q.prior|))
  }

  /**
   * Registration of session `thd`: with the binlog emulated nothing happens;
   * otherwise the session points at its own handle, the handle waits for the
   * old tail when there is one, and the handle becomes the tail.
   */
  function RegisterStep(q: CommitQueue, thd: Id, emulateBinLog: bool): (r: CommitQueue)
    requires WellFormed(q) && thd < |q.prior|
    ensures WellFormed(r) && |r.prior| == |q.prior|
  {
    if emulateBinLog then q
    else
      var waitPtr := q.waitPtr[thd := Some(thd)];
      var prior := if q.tail.Some? then q.prior[thd := q.tail] else q.prior;
      CommitQueue(waitPtr[thd], prior, waitPtr)
  }

  /**
   * Unregistration of session `thd`: nothing when its `wait_for_commit_ptr`
   * is null; otherwise its handle stops waiting, the tail is cleared only if
   * it is that very handle, and the session's pointer becomes null.
   */
  function UnregisterStep(q: CommitQueue, thd: Id): (r: CommitQueue)
    requires WellFormed(q) && thd < |q.waitPtr|
    ensures WellFormed(r) && |r.prior| == |q.prior|
  {
    match q.waitPtr[thd]
    case None => q
    case Some(wfc) =>
      CommitQueue(if q.tail == Some(wfc) then None else q.tail,
                  q.prior[wfc := None],
                  q.waitPtr[thd := None])
  }

  /** Registration of the sessions `ts`, one after another. */
  function RegisterAll(q: CommitQueue, ts: seq<Id>, emulateBinLog: bool): (r: CommitQueue)
    requires WellFormed(q) && forall k :: 0 <= k < |ts| ==> ts[k] < |q.prior|
    ensures WellFormed(r) && |r.prior| == |q.prior|
    decreases |ts|
  {
    if ts == [] then q
    else RegisterStep(RegisterAll(q, ts[..|ts| - 1], emulateBinLog), ts[|ts| - 1], emulateBinLog)
  }

  /** No id occurs twice in `ts`. */
  predicate Distinct(ts: seq<Id>) {
    forall i, j :: 0 <= i < j < |ts| ==> ts[i] != ts[j]
  }

  /**
   * `wsrep_commit_will_write_binlog`: the commit goes through the binlog
   * when the binlog is not emulated and the session is local, or is an
   * applier while `log_slave_updates` is on.
   */
  function CommitWillWriteBinlog(emulateBinLog: bool, isLocal: bool, isApplier: bool,
                                 logSlaveUpdates: bool): (r: bool)
    ensures r ==> !emulateBinLog
    ensures !emulateBinLog && isLocal ==> r
    ensures !emulateBinLog && isApplier && logSlaveUpdates ==> r
    ensures !isLocal && !(isApplier && logSlaveUpdates) ==> !r
  {
    !emulateBinLog && (isLocal || (isApplier && logSlaveUpdates))
  }

  /** Whenever the commit will write the binlog, registering queues the session as the tail. */
  lemma WillWriteBinlogRegisters(q: CommitQueue, thd: Id, emulateBinLog: bool, isLocal: bool,
                                 isApplier: bool, logSlaveUpdates: bool)
    requires WellFormed(q) && thd < |q.prior|
    requires CommitWillWriteBinlog(emulateBinLog, isLocal, isApplier, logSlaveUpdates)
    ensures RegisterStep(q, thd, emulateBinLog).tail == Some(thd)
    ensures RegisterStep(q, thd, emulateBinLog).waitPtr[thd] == Some(thd)
  {
  }

  /** With the binlog emulated, any number of registrations leave the state as it was. */
  lemma {:induction false} EmulatedRegistersNothing(q: CommitQueue, ts: seq<Id>)
    requires WellFormed(q) && forall k :: 0 <= k < |ts| ==> ts[k] < |q.prior|
    ensures RegisterAll(q, ts, true) == q
    decreases |ts|
  {
    if ts != [] {
      EmulatedRegistersNothing(q, ts[..|ts| - 1]);
    }
  }

  /** A non-empty run of registrations is the run without its last one, then the last one. */
  lemma RegisterAllSnoc(q: CommitQueue, ts: seq<Id>)
    requires WellFormed(q) && forall k :: 0 <= k < |ts| ==> ts[k] < |q.prior|
    requires ts != []
    ensures RegisterAll(q, ts, false) == RegisterStep(RegisterAll(q, ts[..|ts| - 1], false), ts[|ts| - 1], false)
  {
  }

  /** Registering sessions in order leaves the last one as the tail. */
  lemma RegisterAllTail(q: CommitQueue, ts: seq<Id>)
    requires WellFormed(q) && forall k :: 0 <= k < |ts| ==> ts[k] < |q.prior|
    requires ts != []
    ensures RegisterAll(q, ts, false).tail == Some(ts[|ts| - 1])
  {
    RegisterAllSnoc(q, ts);
  }

  /** Registering sessions in order points each at its own handle and leaves the others' pointers. */
  lemma {:induction false} RegisterAllWaitPtr(q: CommitQueue, ts: seq<Id>)
    requires WellFormed(q) && forall k :: 0 <= k < |ts| ==> ts[k] < |q.prior|
    ensures forall k :: 0 <= k < |ts| ==> RegisterAll(q, ts, false).waitPtr[ts[k]] == Some(ts[k])
    ensures forall i :: 0 <= i < |q.prior| && i !in ts ==> RegisterAll(q, ts, false).waitPtr[i] == q.waitPtr[i]
    decreases |ts|
  {
    if ts != [] {
      var init := ts[..|ts| - 1];
      RegisterAllSnoc(q, ts);
      RegisterAllWaitPtr(q, init);
      var r := RegisterAll(q, ts, false);
      forall k | 0 <= k < |ts| - 1 ensures r.waitPtr[ts[k]] == Some(ts[k]) {
        assert ts[k] == init[k];
      }
      forall i | 0 <= i < |q.prior| && i !in ts ensures r.waitPtr[i] == q.waitPtr[i] {
        assert i !in init;
      }
    }
  }

  /** Registering sessions in order leaves the handles of the other sessions as they were. */
  lemma {:induction false} RegisterAllPriorOthers(q: CommitQueue, ts: seq<Id>)
    requires WellFormed(q) && forall k :: 0 <= k < |ts| ==> ts[k] < |q.prior|
    ensures forall i :: 0 <= i < |q.prior| && i !in ts ==> RegisterAll(q, ts, false).prior[i] == q.prior[i]
    decreases |ts|
  {
    if ts != [] {
      var init := ts[..|ts| - 1];
      RegisterAllSnoc(q, ts);
      RegisterAllPriorOthers(q, init);
      forall i | 0 <= i < |q.prior| && i !in ts ensures RegisterAll(q, ts, false).prior[i] == q.prior[i] {
        assert i !in init;
      }
    }
  }

  /**
   * Registering distinct sessions in order links each handle to the one
   * registered just before it, and the first to the old tail (if any).
   */
  lemma {:induction false} RegisterAllPriorChain(q: CommitQueue, ts: seq<Id>)
    requires WellFormed(q) && forall k :: 0 <= k < |ts| ==> ts[k] < |q.prior|
    requires ts != [] && Distinct(ts)
    ensures forall k :: 0 < k < |ts| ==> RegisterAll(q, ts, false).prior[ts[k]] == Some(ts[k - 1])
    ensures RegisterAll(q, ts, false).prior[ts[0]] == if q.tail.Some? then q.tail else q.prior[ts[0]]
    decreases |ts|
  {
    var init := ts[..|ts| - 1];
    var last := ts[|ts| - 1];
    RegisterAllSnoc(q, ts);
    if init == [] {
      assert RegisterAll(q, init, false) == q;
    } else {
      assert Distinct(init) by {
        assert forall k :: 0 <= k < |init| ==> init[k] == ts[k];
      }
      RegisterAllPriorChain(q, init);
      RegisterAllTail(q, init);
      var mid := RegisterAll(q, init, false);
      var r := RegisterAll(q, ts, false);
      assert r.prior == mid.prior[last := Some(ts[|ts| - 2])];
      forall k | 0 < k < |ts| - 1 ensures r.prior[ts[k]] == Some(ts[k - 1]) {
        assert ts[k] == init[k] && ts[k - 1] == init[k - 1] && ts[k] != last;
      }
      assert ts[0] == init[0] && ts[0] != last;
    }
  }

  /**
   * Registering distinct sessions in order links each handle to the one
   * registered just before it, the first to the old tail (if any), and
   * leaves the last one as the tail; other handles are untouched.
   */
  lemma RegisterChain(q: CommitQueue, ts: seq<Id>)
    requires WellFormed(q) && forall k :: 0 <= k < |ts| ==> ts[k] < |q.prior|
    requires ts != [] && Distinct(ts)
    ensures RegisterAll(q, ts, false).tail == Some(ts[|ts| - 1])
    ensures forall k :: 0 < k < |ts| ==> RegisterAll(q, ts, false).prior[ts[k]] == Some(ts[k - 1])
    ensures RegisterAll(q, ts, false).prior[ts[0]] == if q.tail.Some? then q.tail else q.prior[ts[0]]
    ensures forall k :: 0 <= k < |ts| ==> RegisterAll(q, ts, false).waitPtr[ts[k]] == Some(ts[k])
    ensures forall i :: 0 <= i < |q.prior| && i !in ts ==>
      RegisterAll(q, ts, false).prior[i] == q.prior[i] && RegisterAll(q, ts, false).waitPtr[i] == q.waitPtr[i]
  {
    RegisterAllTail(q, ts);
    RegisterAllWaitPtr(q, ts);
    RegisterAllPriorOthers(q, ts);
    RegisterAllPriorChain(q, ts);
  }

  /**
   * After distinct sessions register in order, unregistering any but the
   * last leaves the tail on the last one, and unregistering the last one
   * clears it.
   */
  lemma TailClearedOnlyByLast(q: CommitQueue, ts: seq<Id>, k: nat)
    requires WellFormed(q) && forall j :: 0 <= j < |ts| ==> ts[j] < |q.prior|
    requires ts != [] && Distinct(ts) && k < |ts|
    ensures UnregisterStep(RegisterAll(q, ts, false), ts[k]).tail ==
      if k == |ts| - 1 then None else Some(ts[|ts| - 1])
  {
    RegisterChain(q, ts);
  }

  /** A second unregistration of the same session changes nothing. */
  lemma UnregisterTwiceIsUnregisterOnce(q: CommitQueue, thd: Id)
    requires WellFormed(q) && thd < |q.waitPtr|
    ensures UnregisterStep(UnregisterStep(q, thd), thd) == UnregisterStep(q, thd)
  {
  }

  /**
   * Three sessions A, B, C register in order on an empty tail: C waits for
   * B and B for A. A's commit and B's leave the tail on C; C's clears it.
   */
  lemma ThreeInOrder(q: CommitQueue, a: Id, b: Id, c: Id)
    requires WellFormed(q) && a < |q.prior| && b < |q.prior| && c < |q.prior|
    requires a != b && b != c && a != c
    requires q.tail == None && q.prior[a] == None
    ensures var r := RegisterAll(q, [a, b, c], false);
      && r.prior[a] == None && r.prior[b] == Some(a) && r.prior[c] == Some(b) && r.tail == Some(c)
      && UnregisterStep(r, a).tail == Some(c)
      && UnregisterStep(UnregisterStep(r, a), b).tail == Some(c)
      && UnregisterStep(UnregisterStep(UnregisterStep(r, a), b), c).tail == None
  {
    var ts := [a, b, c];
    RegisterChain(q, ts);
    var r := RegisterAll(q, ts, false);
    assert r.waitPtr[a] == Some(a) && r.waitPtr[b] == Some(b) && r.waitPtr[c] == Some(c);
  }

  /** The ordering service: the one tail and the arena of handles. */
  class GroupCommitOrder {
    var tail: Option<Id>
    var prior: seq<Option<Id>>
    var waitPtr: seq<Option<Id>>
    /** `wsrep_emulate_bin_log`: the binlog is off, so no queue is kept. */
    const emulateBinLog: bool

    function State(): (q: CommitQueue)
      reads this
    {
      CommitQueue(tail, prior, waitPtr)
    }

    ghost predicate Valid()
      reads this
    {
      WellFormed(State())
    }

    /** An empty tail and `handles` sessions that wait for no one. */
    constructor (handles: nat, emulateBinLog: bool)
      ensures Valid() && this.emulateBinLog == emulateBinLog
      ensures tail == None && |prior| == handles
      ensures forall i :: 0 <= i < handles ==> prior[i] == None && waitPtr[i] == None
    {
      tail := None;
      prior := seq(handles, _ => None);
      waitPtr := seq(handles, _ => None);
      this.emulateBinLog := emulateBinLog;
    }

    /** `wsrep_register_for_group_commit(thd)`. */
    method Register(thd: Id)
      requires Valid() && thd < |prior|
      modifies this
      ensures Valid() && State() == RegisterStep(old(State()), thd, emulateBinLog)
      ensures emulateBinLog ==> tail == old(tail) && prior == old(prior) && waitPtr == old(waitPtr)
      ensures !emulateBinLog ==>
        && tail == Some(thd)
        && waitPtr == old(waitPtr)[thd := Some(thd)]
        && prior == if old(tail).Some? then old(prior)[thd := old(tail)] else old(prior)
    {
      if emulateBinLog {
        return;
      }
      waitPtr := waitPtr[thd := Some(thd)];
      var wfc := thd;
      if tail.Some? {
        prior := prior[wfc := tail];  // register_wait_for_prior_commit
      }
      tail := waitPtr[thd];
    }

    /** `wsrep_unregister_from_group_commit(thd)`. */
    method Unregister(thd: Id)
      requires Valid() && thd < |waitPtr|
      modifies this
      ensures Valid() && State() == UnregisterStep(old(State()), thd)
      ensures old(waitPtr[thd]).None? ==> tail == old(tail) && prior == old(prior) && waitPtr == old(waitPtr)
      ensures old(waitPtr[thd]).Some? ==>
        && prior == old(prior)[old(waitPtr[thd]).value := None]
        && tail == (if old(tail) == old(waitPtr[thd]) then None else old(tail))
        && waitPtr == old(waitPtr)[thd := None]
    {
      var wfc := waitPtr[thd];
      if wfc.Some? {
        prior := prior[wfc.value := None];  // unregister_wait_for_prior_commit
        if wfc == tail {
          tail := None;
        }
        waitPtr := waitPtr[thd := None];
      }
    }
  }
}
