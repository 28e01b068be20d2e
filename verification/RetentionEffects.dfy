/** What a retention run does to the store, and what it can never touch. */
module RetentionEffects {
  import opened Prelude
  import opened Records
  import opened EncryptedStore
  import opened StoreInvariant
  import opened Retention
  import AuditChain

  /** Only listed records change, whatever fails on the way. */
  lemma {:induction false} OthersUntouched(p: Primitives, t: Tables, ids: seq<string>, times: seq<DeleteTimes>,
      sessions: seq<bool>, id: string)
    requires |times| == |sessions| == |ids| && id !in ids
    ensures var t' := AfterDeletions(p, t, ids, times, sessions);
      (id in t'.records <==> id in t.records) && (id in t.records ==> t'.records[id] == t.records[id])
  {
    if ids != [] {
      var n := |ids| - 1;
      assert ids == ids[..n] + [ids[n]];
      OthersUntouched(p, t, ids[..n], times[..n], sessions[..n], id);
    }
  }

  datatype Applied = Applied(deleted: seq<string>, failures: seq<string>)

  /** The identifiers whose session flag is `want`, in order. */
  function Pick(ids: seq<string>, sessions: seq<bool>, want: bool): seq<string>
    requires |ids| == |sessions|
  {
    if ids == [] then []
    else
      var n := |ids| - 1;
      Pick(ids[..n], sessions[..n], want) + if sessions[n] == want then [ids[n]] else []
  }

  /** The records reported deleted are marked so; every other row is as it was. */
  ghost predicate Swept(t: Tables, t': Tables, deleted: seq<string>) {
    && t'.records.Keys == t.records.Keys
    && forall id :: id in t.records ==>
        if id in deleted then !t.records[id].deleted && t'.records[id] == t.records[id].(deleted := true,
                                updatedAt := t'.records[id].updatedAt)
        else t'.records[id] == t.records[id]
  }

  /** Each candidate is reported once, as deleted or as failed, in the plan's order. */
  ghost predicate Reports(candidates: seq<string>, sessions: seq<bool>, r: Applied) {
    && |candidates| == |r.deleted| + |r.failures| <= |sessions|
    && multiset(candidates) == multiset(r.deleted) + multiset(r.failures)
    && forall i :: 0 <= i < |candidates| ==> (sessions[i] <==> candidates[i] in r.deleted)
  }

  /** Whatever protects a record that reads keeps its row as it is, and a lapsed one that nothing
      protects goes, unless its deletion is reported as failed. */
  ghost predicate Obeys(p: Primitives, t: Tables, policy: Policy, at: Clocks, t': Tables, failures: seq<string>) {
    forall id :: id in t.records && !t.records[id].deleted && Decode(p, id, t.records[id]).Ok? ==>
      var r := Decode(p, id, t.records[id]).value;
      && id in t'.records
      && (t'.records[id] == t.records[id] <==>
            Protected(p, r, at.wall) || !Lapsed(r, policy, at.now) || id in failures)
      && (t'.records[id] != t.records[id] ==> t'.records[id].deleted)
  }

  lemma ReportsNext(ids: seq<string>, sessions: seq<bool>, done: Applied, id: string, open: bool)
    requires |ids| == |sessions| && Reports(ids, sessions, done) && id !in ids
    ensures Reports(ids + [id], sessions + [open],
        if open then done.(deleted := done.deleted + [id]) else done.(failures := done.failures + [id]))
  {
    assert id !in multiset(ids);
    assert id !in done.deleted;
  }

  lemma {:induction false} PickReports(ids: seq<string>, sessions: seq<bool>)
    requires |ids| == |sessions| && Distinct(ids)
    ensures Reports(ids, sessions, Applied(Pick(ids, sessions, true), Pick(ids, sessions, false)))
  {
    if ids != [] {
      var n := |ids| - 1;
      assert ids == ids[..n] + [ids[n]] && sessions == sessions[..n] + [sessions[n]];
      assert ids[n] !in ids[..n];
      PickReports(ids[..n], sessions[..n]);
      ReportsNext(ids[..n], sessions[..n], Applied(Pick(ids[..n], sessions[..n], true),
                  Pick(ids[..n], sessions[..n], false)), ids[n], sessions[n]);
      assert Pick(ids[..n], sessions[..n], true) + [] == Pick(ids[..n], sessions[..n], true);
      assert Pick(ids[..n], sessions[..n], false) + [] == Pick(ids[..n], sessions[..n], false);
    }
  }

  /** A report splits the candidates in two. */
  lemma ReportSplits(ids: seq<string>, sessions: seq<bool>, done: Applied)
    requires Distinct(ids) && Reports(ids, sessions, done)
    ensures forall id :: id in ids <==> id in done.deleted || id in done.failures
    ensures forall id :: id in done.deleted ==> id !in done.failures
  {
    forall id
      ensures id in ids <==> id in done.deleted || id in done.failures
    {
      assert id in ids <==> id in multiset(ids);
      assert id in done.deleted <==> id in multiset(done.deleted);
      assert id in done.failures <==> id in multiset(done.failures);
    }
    forall id | id in done.deleted
      ensures id !in done.failures
    {
      OnceInDistinct(ids, id);
      assert id in multiset(done.deleted);
      assert multiset(done.failures)[id] == 0;
    }
  }

  lemma {:induction false} OnceInDistinct(ids: seq<string>, id: string)
    requires Distinct(ids)
    ensures multiset(ids)[id] <= 1
  {
    if ids != [] {
      var n := |ids| - 1;
      assert ids == ids[..n] + [ids[n]] && ids[n] !in ids[..n];
      OnceInDistinct(ids[..n], id);
      assert ids[n] !in multiset(ids[..n]);
    }
  }

  lemma PickedAreListed(ids: seq<string>, sessions: seq<bool>)
    requires |ids| == |sessions| && Distinct(ids)
    ensures forall id :: id in Pick(ids, sessions, true) ==> id in ids
  {
    PickReports(ids, sessions);
    ReportSplits(ids, sessions, Applied(Pick(ids, sessions, true), Pick(ids, sessions, false)));
  }

  lemma SweptNext(p: Primitives, t: Tables, mid: Tables, gone: seq<string>, id: string, at: DeleteTimes)
    requires Swept(t, mid, gone) && id !in gone && Live(t, id)
    ensures Swept(t, AfterDelete(p, mid, id, at), gone + [id])
  {
    assert mid.records[id] == t.records[id];
  }

  lemma {:induction false} DeletionsSweep(p: Primitives, t: Tables, ids: seq<string>, times: seq<DeleteTimes>,
      sessions: seq<bool>)
    requires |times| == |sessions| == |ids| && Distinct(ids) && forall id :: id in ids ==> Live(t, id)
    ensures Swept(t, AfterDeletions(p, t, ids, times, sessions), Pick(ids, sessions, true))
  {
    if ids != [] {
      var n := |ids| - 1;
      assert ids[n] in ids && ids[n] !in ids[..n] && forall id :: id in ids[..n] ==> id in ids;
      DeletionsSweep(p, t, ids[..n], times[..n], sessions[..n]);
      PickedAreListed(ids[..n], sessions[..n]);
      var mid, gone := AfterDeletions(p, t, ids[..n], times[..n], sessions[..n]), Pick(ids[..n], sessions[..n], true);
      SweptNext(p, t, mid, gone, ids[n], times[n]);
      assert gone + [] == gone;
    }
  }

  lemma SweepObeys(p: Primitives, t: Tables, policy: Policy, at: Clocks, plan: Plan, t': Tables,
      sessions: seq<bool>, done: Applied)
    requires Spelled(p, t, policy, at, plan) && Swept(t, t', done.deleted)
    requires Distinct(plan.candidates) && Reports(plan.candidates, sessions, done)
    ensures Obeys(p, t, policy, at, t', done.failures)
  {
    ReportSplits(plan.candidates, sessions, done);
  }

  method Apply(store: Store, confirmation: string, unlocked: bool, s: Settings, at: Clocks,
               times: seq<DeleteTimes>, sessions: seq<bool>) returns (r: Result<Applied>, ghost plan: Plan)
    requires |times| == |sessions| >= |store.records|
    modifies store
    ensures confirmation != CONFIRMATION ==> r == Err
    ensures r.Err? ==> store.State() == old(store.State())
    ensures Readable(store.p, old(store.State())) && unlocked && confirmation == CONFIRMATION ==> r.Ok?
    ensures r.Ok? ==> IsPlan(store.p, old(store.State()), PolicyDays(store.p, s), at, plan)
    ensures r.Ok? ==> |plan.candidates| <= |times|
    ensures r.Ok? ==> var n := |plan.candidates|;
      store.State() == AfterDeletions(store.p, old(store.State()), plan.candidates, times[..n], sessions[..n])
    ensures r.Ok? ==> var n := |plan.candidates|;
      r.value == Applied(Pick(plan.candidates, sessions[..n], true), Pick(plan.candidates, sessions[..n], false))
    ensures r.Ok? ==> Spelled(store.p, old(store.State()), PolicyDays(store.p, s), at, plan)
    ensures r.Ok? ==> Reports(plan.candidates, sessions, r.value)
    ensures r.Ok? ==> Swept(old(store.State()), store.State(), r.value.deleted)
    ensures r.Ok? ==>
      Obeys(store.p, old(store.State()), PolicyDays(store.p, s), at, store.State(), r.value.failures)
  {
    plan := Plan([], []);
    if confirmation != CONFIRMATION {
      return Err, plan;
    }
    var planned := MakePlan(store, unlocked, s, at);
    if planned.Err? {
      return Err, plan;
    }
    plan := planned.value;
    var ids := planned.value.candidates;
    FewerThanRows(store.State(), ids);
    var deleted, failures := DeleteAll(store, ids, times[..|ids|], sessions[..|ids|]);
    r := Ok(Applied(deleted, failures));
    PickReports(ids, sessions[..|ids|]);
    DeletionsSweep(store.p, old(store.State()), ids, times[..|ids|], sessions[..|ids|]);
    SweepObeys(store.p, old(store.State()), PolicyDays(store.p, s), at, plan, store.State(), sessions[..|ids|],
               r.value);
  }

  method DeleteAll(store: Store, ids: seq<string>, times: seq<DeleteTimes>, sessions: seq<bool>)
      returns (deleted: seq<string>, failures: seq<string>)
    requires |times| == |sessions| == |ids|
    requires Distinct(ids) && forall id :: id in ids ==> Live(store.State(), id)
    modifies store
    ensures store.State() == AfterDeletions(store.p, old(store.State()), ids, times, sessions)
    ensures deleted == Pick(ids, sessions, true) && failures == Pick(ids, sessions, false)
  {
    deleted, failures := [], [];
    for i := 0 to |ids|
      invariant store.State() == AfterDeletions(store.p, old(store.State()), ids[..i], times[..i], sessions[..i])
      invariant deleted == Pick(ids[..i], sessions[..i], true) && failures == Pick(ids[..i], sessions[..i], false)
    {
      assert ids[..i + 1][..i] == ids[..i] && times[..i + 1][..i] == times[..i] &&
          sessions[..i + 1][..i] == sessions[..i];
      assert ids[i] in ids && ids[i] !in ids[..i];
      OthersUntouched(store.p, old(store.State()), ids[..i], times[..i], sessions[..i], ids[i]);
      var gone := store.DeleteRecord(sessions[i], ids[i], times[i]);
      if gone.Err? {
        failures := failures + [ids[i]];
      } else if gone.value {
        deleted := deleted + [ids[i]];
      }
    }
    assert ids[..|ids|] == ids && times[..|ids|] == times && sessions[..|ids|] == sessions;
  }

  lemma FewerThanRows(t: Tables, ids: seq<string>)
    requires forall id :: id in ids ==> id in t.records
    requires Distinct(ids)
    ensures |ids| <= |t.records|
  {
    DistinctSize(ids);
    assert Elements(ids) <= t.records.Keys;
    SubsetSize(Elements(ids), t.records.Keys);
  }

  lemma {:induction false} DeletionsKeepHealthy(p: Primitives, t: Tables, ids: seq<string>, times: seq<DeleteTimes>,
      sessions: seq<bool>)
    requires p.Sound() && Healthy(p, t)
    requires |times| == |sessions| == |ids|
    ensures Healthy(p, AfterDeletions(p, t, ids, times, sessions))
  {
    if ids != [] {
      var n := |ids| - 1;
      DeletionsKeepHealthy(p, t, ids[..n], times[..n], sessions[..n]);
      DeleteKeepsHealthy(p, AfterDeletions(p, t, ids[..n], times[..n], sessions[..n]), ids[n], times[n]);
    }
  }

  function Open(n: nat): seq<bool> { seq(n, i => true) }

  /** The events a failure-free run appends. */
  function DeleteEvents(ids: seq<string>, times: seq<DeleteTimes>): seq<Option<AuditClear>>
    requires |ids| == |times|
  {
    seq(|ids|, i requires 0 <= i < |ids| => Some(AuditClear("delete", ids[i], DeleteEvent(times[i].event))))
  }

  /** The state in which the last of a failure-free run of deletions starts. */
  lemma LastDeletion(p: Primitives, t: Tables, ids: seq<string>, times: seq<DeleteTimes>)
    requires |times| == |ids| && Distinct(ids) && (forall id :: id in ids ==> Live(t, id)) && ids != []
    ensures var n := |ids| - 1;
      var before := AfterDeletions(p, t, ids[..n], times[..n], Open(n));
      && AfterDeletions(p, t, ids, times, Open(|ids|)) == AfterDelete(p, before, ids[n], times[n])
      && Live(before, ids[n])
      && ids[n] !in ids[..n] && (forall id :: id in ids[..n] ==> id in ids)
  {
    var n := |ids| - 1;
    assert Open(|ids|)[..n] == Open(n);
    assert ids[n] in ids && ids == ids[..n] + [ids[n]];
    OthersUntouched(p, t, ids[..n], times[..n], Open(n), ids[n]);
  }

  /** Without failures every listed live record ends up deleted. */
  lemma {:induction false} ListedAreDeleted(p: Primitives, t: Tables, ids: seq<string>, times: seq<DeleteTimes>)
    requires |times| == |ids| && Distinct(ids) && (forall id :: id in ids ==> Live(t, id))
    ensures var t' := AfterDeletions(p, t, ids, times, Open(|ids|));
      forall id :: id in ids ==> id in t'.records && t'.records[id].deleted
  {
    if ids != [] {
      var n := |ids| - 1;
      LastDeletion(p, t, ids, times);
      ListedAreDeleted(p, t, ids[..n], times[..n]);
      assert ids == ids[..n] + [ids[n]];
    }
  }

  /** ... and the audit chain gains exactly one event for each, in order. */
  lemma {:induction false} OneEventEach(p: Primitives, t: Tables, ids: seq<string>, times: seq<DeleteTimes>)
    requires p.Sound() && AuditChain.ValidChain(p, t.audit)
    requires |times| == |ids| && Distinct(ids) && (forall id :: id in ids ==> Live(t, id))
    ensures var audit := AfterDeletions(p, t, ids, times, Open(|ids|)).audit;
      && AuditChain.ValidChain(p, audit)
      && AuditChain.Events(p, audit) == AuditChain.Events(p, t.audit) + DeleteEvents(ids, times)
  {
    if ids == [] {
      assert AuditChain.Events(p, t.audit) + DeleteEvents(ids, times) == AuditChain.Events(p, t.audit);
    } else {
      var n := |ids| - 1;
      LastDeletion(p, t, ids, times);
      OneEventEach(p, t, ids[..n], times[..n]);
      var before := AfterDeletions(p, t, ids[..n], times[..n], Open(n));
      AuditChain.AppendKeepsValid(p, before.audit, "delete", ids[n], DeleteEvent(times[n].event), times[n].auditNonce);
      assert DeleteEvents(ids, times) ==
          DeleteEvents(ids[..n], times[..n]) + [Some(AuditClear("delete", ids[n], DeleteEvent(times[n].event)))];
    }
  }

  /** Held records stay live and unchanged, even when deletions of others fail. */
  lemma HeldSurvive(p: Primitives, t: Tables, policy: Policy, at: Clocks, plan: Plan, times: seq<DeleteTimes>,
      sessions: seq<bool>, id: string)
    requires IsPlan(p, t, policy, at, plan) && |times| == |sessions| == |plan.candidates|
    requires IsHeld(p, t, at.wall, id)
    ensures var t' := AfterDeletions(p, t, plan.candidates, times, sessions);
      Live(t', id) && t'.records[id] == t.records[id]
  {
    assert id !in plan.candidates;
    OthersUntouched(p, t, plan.candidates, times, sessions, id);
  }

  /** Planning again at the same clocks finds nothing left to delete. */
  lemma ReplanIsEmpty(p: Primitives, t: Tables, policy: Policy, at: Clocks, plan: Plan, times: seq<DeleteTimes>,
      again: Plan)
    requires IsPlan(p, t, policy, at, plan) && |times| == |plan.candidates|
    requires IsPlan(p, AfterDeletions(p, t, plan.candidates, times, Open(|times|)), policy, at, again)
    ensures again.candidates == []
  {
    var ids := plan.candidates;
    var t' := AfterDeletions(p, t, ids, times, Open(|times|));
    ListedAreDeleted(p, t, ids, times);
    if again.candidates != [] {
      var id := again.candidates[0];
      assert id in again.candidates && IsCandidate(p, t', policy, at, id);
      OthersUntouched(p, t, ids, times, Open(|times|), id);
      assert IsCandidate(p, t, policy, at, id);
    }
  }

  /** A record a tag or a flag asks to keep, whatever the clock says; a compaction record is one. */
  predicate Preserved(p: Primitives, r: StoredRecord) {
    var m := r.clear.metadata;
    || (exists i :: 0 <= i < |r.clear.tags| && IsHoldTag(p.lower(p.strip(r.clear.tags[i]))))
    || IsTrue(m, "retentionHold") || IsTrue(m, "legalHold") || IsTrue(m, "preserve") || IsTrue(m, "doNotDelete")
  }

  /** What can happen to the store later: any retention run at any clocks under any policy,
      with any failures, and writes and deletions the caller asks for by name. */
  datatype Later =
    | Write(req: Request, moment: Moment)
    | Remove(id: string, removedAt: DeleteTimes)
    | Retain(policy: Policy, at: Clocks, plan: Plan, times: seq<DeleteTimes>, sessions: seq<bool>)

  ghost predicate Happens(p: Primitives, t: Tables, step: Later, t': Tables) {
    match step
    case Write(req, moment) => t' == AfterPut(p, t, req, moment)
    case Remove(id, removedAt) => t' == AfterDelete(p, t, id, removedAt)
    case Retain(policy, at, plan, times, sessions) =>
      && IsPlan(p, t, policy, at, plan)
      && |times| == |sessions| == |plan.candidates|
      && t' == AfterDeletions(p, t, plan.candidates, times, sessions)
  }

  predicate Spares(step: Later, id: string) {
    match step
    case Write(req, moment) => IdOf(req, moment) != id
    case Remove(other, _) => other != id
    case Retain(_, _, _, _, _) => true
  }

  ghost predicate LeadsTo(p: Primitives, t: Tables, steps: seq<Later>, t': Tables) {
    if steps == [] then t' == t
    else
      var n := |steps| - 1;
      exists mid :: LeadsTo(p, t, steps[..n], mid) && Happens(p, mid, steps[n], t')
  }

  /** A preserved record survives every later history in which nobody overwrites or deletes
      it by name. */
  lemma {:induction false} PreservedSurvives(p: Primitives, t: Tables, steps: seq<Later>, t': Tables, id: string)
    requires LeadsTo(p, t, steps, t')
    requires Live(t, id) && Decode(p, id, t.records[id]).Ok? && Preserved(p, Decode(p, id, t.records[id]).value)
    requires forall step :: step in steps ==> Spares(step, id)
    ensures Live(t', id) && t'.records[id] == t.records[id]
  {
    if steps != [] {
      var n := |steps| - 1;
      var mid :| LeadsTo(p, t, steps[..n], mid) && Happens(p, mid, steps[n], t');
      PreservedSurvives(p, t, steps[..n], mid, id);
      assert Spares(steps[n], id);
      match steps[n] {
        case Write(_, _) =>
        case Remove(_, _) =>
        case Retain(policy, at, plan, times, sessions) =>
          HeldIsProtected(p, Decode(p, id, mid.records[id]).value, at.wall);
          HeldSurvive(p, mid, policy, at, plan, times, sessions, id);
      }
    }
  }
}
