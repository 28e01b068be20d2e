/** Retention: the policy, the holds, and planning against two clocks. */
module Retention {
  import opened Prelude
  import opened Records
  import opened EncryptedStore
  import opened StoreInvariant

  const CONFIRMATION := "APPLY CYBERFORGE RETENTION"
  const HOLD_TAGS := {"legal-hold", "retention-hold", "preserve", "do-not-delete", "incident-record"}
  const HOLD_FLAGS := {"retentionHold", "legalHold", "preserve", "doNotDelete"}
  const DAY := 86_400_000_000
  const DEFAULT_DAYS: map<string, int> := map[
    "research-run" := 730, "scenario" := 730, "infrastructure-map" := 730, "report" := 730,
    "certificate" := 3650, "evidence" := 1095, "council-opinion" := 365, "memory-compaction" := 1095,
    "health" := 7, "default" := 365]

  type Policy = m: map<string, int> | "default" in m witness map["default" := 365]

  const LONGEST := 36500

  /** What a policy is made from: the environment's default, if set, and the caller's
      overrides in dictionary order. */
  datatype Settings = Settings(environmentDefault: Option<int>, overrides: seq<(string, int)>)

  function Days(value: int): int { Between(1, LONGEST, value) }

  /** The record type an override is for. */
  function TypeOf(p: Primitives, override: (string, int)): string { Take(p.strip(override.0), 96) }

  function BaseDays(environmentDefault: Option<int>): Policy {
    if environmentDefault.Some? then DEFAULT_DAYS["default" := Days(environmentDefault.value)] else DEFAULT_DAYS
  }

  function PolicyDays(p: Primitives, s: Settings): Policy
    decreases |s.overrides|
  {
    if s.overrides == [] then BaseDays(s.environmentDefault)
    else
      var n := |s.overrides| - 1;
      var policy, recordType := PolicyDays(p, s.(overrides := s.overrides[..n])), TypeOf(p, s.overrides[n]);
      if recordType == "" then policy else policy[recordType := Days(s.overrides[n].1)]
  }

  /** `_retention_policy`. */
  method RetentionPolicy(p: Primitives, s: Settings) returns (policy: Policy)
    ensures policy == PolicyDays(p, s)
  {
    policy := BaseDays(s.environmentDefault);
    for i := 0 to |s.overrides|
      invariant policy == PolicyDays(p, s.(overrides := s.overrides[..i]))
    {
      assert s.overrides[..i + 1][..i] == s.overrides[..i];
      var recordType := TypeOf(p, s.overrides[i]);
      if recordType != "" {
        policy := policy[recordType := Days(s.overrides[i].1)];
      }
    }
    assert s.overrides[..|s.overrides|] == s.overrides;
  }

  /** Override `i` is the last one for a record type. */
  predicate LastFor(p: Primitives, overrides: seq<(string, int)>, recordType: string, i: nat) {
    && recordType != "" && i < |overrides| && TypeOf(p, overrides[i]) == recordType
    && forall j :: i < j < |overrides| ==> TypeOf(p, overrides[j]) != recordType
  }

  /** `days` is the number from 1 to 36500 nearest to `asked`. */
  predicate Nearest(asked: int, days: int) {
    1 <= days <= 36500 && (asked < 1 ==> days == 1) && (asked > 36500 ==> days == 36500) &&
    (1 <= asked <= 36500 ==> days == asked)
  }

  /** The last override for a type counts, whatever was there before. */
  lemma {:induction false} LastOverrideCounts(p: Primitives, s: Settings, recordType: string, i: nat)
    requires LastFor(p, s.overrides, recordType, i)
    ensures var policy := PolicyDays(p, s); recordType in policy && Nearest(s.overrides[i].1, policy[recordType])
    decreases |s.overrides|
  {
    var n := |s.overrides| - 1;
    if i < n {
      assert s.overrides[..n][i] == s.overrides[i] && TypeOf(p, s.overrides[n]) != recordType;
      LastOverrideCounts(p, s.(overrides := s.overrides[..n]), recordType, i);
    }
  }

  /** A type without an override is kept for its built-in period, and what has none falls under
      the default: the environment's or a year. */
  lemma OthersByDefault(p: Primitives, s: Settings, recordType: string)
    requires forall i :: 0 <= i < |s.overrides| ==> TypeOf(p, s.overrides[i]) != recordType || recordType == ""
    ensures var policy := PolicyDays(p, s);
      && (recordType in policy <==> recordType in DEFAULT_DAYS)
      && (recordType in policy && recordType != "default" ==> policy[recordType] == DEFAULT_DAYS[recordType])
      && (recordType == "default" ==>
            if s.environmentDefault.Some? then Nearest(s.environmentDefault.value, policy["default"])
            else policy["default"] == 365)
  {
    OthersAsBefore(p, s, recordType);
  }

  lemma {:induction false} OthersAsBefore(p: Primitives, s: Settings, recordType: string)
    requires forall i :: 0 <= i < |s.overrides| ==> TypeOf(p, s.overrides[i]) != recordType || recordType == ""
    ensures var policy, base := PolicyDays(p, s), BaseDays(s.environmentDefault);
      (recordType in policy <==> recordType in base) && (recordType in base ==> policy[recordType] == base[recordType])
    decreases |s.overrides|
  {
    if s.overrides != [] {
      var n := |s.overrides| - 1;
      OthersAsBefore(p, s.(overrides := s.overrides[..n]), recordType);
    }
  }

  /** No type is kept for less than a day or more than 36500. */
  lemma {:induction false} PolicyInRange(p: Primitives, s: Settings)
    ensures forall recordType :: recordType in PolicyDays(p, s) ==> 1 <= PolicyDays(p, s)[recordType] <= LONGEST
    decreases |s.overrides|
  {
    if s.overrides != [] {
      PolicyInRange(p, s.(overrides := s.overrides[..|s.overrides| - 1]));
    }
  }

  /** `_held`, which reads the wall clock for `holdUntil`. */
  predicate Held(p: Primitives, r: StoredRecord, wall: int) {
    || (exists tag :: tag in r.clear.tags && p.lower(p.strip(tag)) in HOLD_TAGS)
    || (exists flag :: flag in HOLD_FLAGS && flag in r.clear.metadata && r.clear.metadata[flag] == Bool(true))
    || ("holdUntil" in r.clear.metadata && HeldUntil(p, r.clear.metadata["holdUntil"], wall))
  }

  /** A malformed date holds. */
  predicate HeldUntil(p: Primitives, value: Json, wall: int) {
    value.Str? && value.s != "" &&
    (p.parseTime(value.s) == None || p.parseTime(value.s).value > wall)
  }

  predicate Expired(r: StoredRecord, policy: Policy, now: int) {
    var days := if r.recordType in policy then policy[r.recordType] else policy["default"];
    Max(0, now - r.updatedAt) >= days * DAY
  }

  /** The clocks of one planning run: `now` for ages, `wall` for holds. */
  datatype Clocks = Clocks(now: int, wall: int)

  predicate Due(p: Primitives, r: StoredRecord, policy: Policy, at: Clocks) {
    !Held(p, r, at.wall) && Expired(r, policy, at.now)
  }

  predicate IsCandidate(p: Primitives, t: Tables, policy: Policy, at: Clocks, id: string) {
    Live(t, id) && var decoded := Decode(p, id, t.records[id]); decoded.Ok? && Due(p, decoded.value, policy, at)
  }

  predicate IsHeld(p: Primitives, t: Tables, wall: int, id: string) {
    Live(t, id) && var decoded := Decode(p, id, t.records[id]); decoded.Ok? && Held(p, decoded.value, wall)
  }

  datatype Plan = Plan(candidates: seq<string>, held: seq<string>)

  /** The plan for the rows in `seen`: each due record once, each held one once. */
  ghost predicate Planned(p: Primitives, t: Tables, policy: Policy, at: Clocks, seen: seq<string>, plan: Plan) {
    && Distinct(plan.candidates) && Distinct(plan.held)
    && (forall id :: id in plan.candidates <==> id in seen && IsCandidate(p, t, policy, at, id))
    && (forall id :: id in plan.held <==> id in seen && IsHeld(p, t, at.wall, id))
  }

  /** A plan names each due record once and each held live record once, and nothing else. */
  ghost predicate IsPlan(p: Primitives, t: Tables, policy: Policy, at: Clocks, plan: Plan) {
    && Distinct(plan.candidates) && Distinct(plan.held)
    && (forall id :: id in plan.candidates <==> IsCandidate(p, t, policy, at, id))
    && (forall id :: id in plan.held <==> IsHeld(p, t, at.wall, id))
  }

  /** Candidates are listed oldest first, ages rounded to thousandths of a day. */
  ghost predicate OldestFirst(p: Primitives, t: Tables, at: Clocks, ids: seq<string>) {
    && (forall id :: id in ids ==> id in t.records)
    && forall i, j :: 0 <= i < j < |ids| ==> AgeKey(p, t, at, ids[i]).AtLeast(AgeKey(p, t, at, ids[j]))
  }

  function AgeKey(p: Primitives, t: Tables, at: Clocks, id: string): Key
    requires id in t.records
  {
    Key(p.roundedDays(Max(0, at.now - t.records[id].updatedAt)), 0)
  }

  /** One turn of the planning loop, for a row that decrypts. */
  function Consider(p: Primitives, r: StoredRecord, policy: Policy, at: Clocks, plan: Plan): Plan {
    if Held(p, r, at.wall) then plan.(held := plan.held + [r.recordId])
    else if Expired(r, policy, at.now) then plan.(candidates := plan.candidates + [r.recordId])
    else plan
  }

  lemma ConsiderPlans(p: Primitives, t: Tables, policy: Policy, at: Clocks, seen: seq<string>, plan: Plan, id: string)
    requires Planned(p, t, policy, at, seen, plan)
    requires id !in seen && Live(t, id) && Decode(p, id, t.records[id]).Ok?
    ensures Planned(p, t, policy, at, seen + [id], Consider(p, Decode(p, id, t.records[id]).value, policy, at, plan))
  {
  }

  /** Whatever the settings, a planned record has aged a day at least, and one that is not held
      is planned once it has aged 36500 days. */
  lemma PlansSpareTheYoung(p: Primitives, t: Tables, s: Settings, at: Clocks, plan: Plan, id: string)
    requires IsPlan(p, t, PolicyDays(p, s), at, plan)
    requires Live(t, id) && Decode(p, id, t.records[id]).Ok?
    ensures var r := Decode(p, id, t.records[id]).value;
      && (id in plan.candidates ==> at.now - r.updatedAt >= DAY)
      && (at.now - r.updatedAt >= LONGEST * DAY && !Held(p, r, at.wall) ==> id in plan.candidates)
  {
    PolicyInRange(p, s);
    var r := Decode(p, id, t.records[id]).value;
    var policy := PolicyDays(p, s);
    var days := if r.recordType in policy then policy[r.recordType] else policy["default"];
    assert 1 <= days <= LONGEST;
    assert DAY <= days * DAY <= LONGEST * DAY;
  }

  // ---- a plan told record by record, without the functions above ----

  predicate IsHoldTag(tag: string) {
    tag == "legal-hold" || tag == "retention-hold" || tag == "preserve" || tag == "do-not-delete" ||
    tag == "incident-record"
  }

  predicate IsTrue(m: Metadata, key: string) { key in m && m[key] == Bool(true) }

  /** A date that cannot be read protects, and one that can does until it has come. */
  predicate Awaits(p: Primitives, value: Json, wall: int) {
    match value
    case Str(text) => text != "" && (match p.parseTime(text) case None => true case Some(time) => wall < time)
    case _ => false
  }

  /** A tag, whatever its case and the blanks around it, a flag or a date asks to keep the record. */
  predicate Protected(p: Primitives, r: StoredRecord, wall: int) {
    var m := r.clear.metadata;
    || (exists i :: 0 <= i < |r.clear.tags| && IsHoldTag(p.lower(p.strip(r.clear.tags[i]))))
    || IsTrue(m, "retentionHold") || IsTrue(m, "legalHold") || IsTrue(m, "preserve") || IsTrue(m, "doNotDelete")
    || ("holdUntil" in m && Awaits(p, m["holdUntil"], wall))
  }

  /** The record's last change is as many days back as its type is kept. */
  predicate Lapsed(r: StoredRecord, policy: Policy, now: int) {
    now - r.updatedAt >= 86_400_000_000 * if r.recordType in policy then policy[r.recordType] else policy["default"]
  }

  /** Of the live records that read, the protected ones are held and the lapsed others planned. */
  ghost predicate Spelled(p: Primitives, t: Tables, policy: Policy, at: Clocks, plan: Plan) {
    && (forall id :: id in plan.candidates || id in plan.held ==> id in t.records && !t.records[id].deleted)
    && forall id :: id in t.records && !t.records[id].deleted ==>
        match Decode(p, id, t.records[id])
        case Err => id !in plan.held && id !in plan.candidates
        case Ok(r) =>
          && (id in plan.held <==> Protected(p, r, at.wall))
          && (id in plan.candidates <==> !Protected(p, r, at.wall) && Lapsed(r, policy, at.now))
  }

  /** No record is listed before one that is older, as far as the report's rounding tells. */
  ghost predicate AgesFall(p: Primitives, t: Tables, now: int, ids: seq<string>) {
    && (forall id :: id in ids ==> id in t.records)
    && forall i, j :: 0 <= i < j < |ids| ==>
        p.roundedDays(Max(0, now - t.records[ids[i]].updatedAt))
        >= p.roundedDays(Max(0, now - t.records[ids[j]].updatedAt))
  }

  lemma TagHolds(p: Primitives, tags: seq<string>)
    ensures (exists tag :: tag in tags && p.lower(p.strip(tag)) in HOLD_TAGS)
       <==> exists i :: 0 <= i < |tags| && IsHoldTag(p.lower(p.strip(tags[i])))
  {
    assert forall i :: 0 <= i < |tags| ==> tags[i] in tags;
    assert forall tag :: tag in HOLD_TAGS <==> IsHoldTag(tag);
  }

  lemma FlagHolds(m: Metadata)
    ensures (exists flag :: flag in HOLD_FLAGS && flag in m && m[flag] == Bool(true))
       <==> IsTrue(m, "retentionHold") || IsTrue(m, "legalHold") || IsTrue(m, "preserve") || IsTrue(m, "doNotDelete")
  {
    assert "retentionHold" in HOLD_FLAGS && "legalHold" in HOLD_FLAGS && "preserve" in HOLD_FLAGS &&
        "doNotDelete" in HOLD_FLAGS;
  }

  /** The holds the code tests are the protections. */
  lemma HeldIsProtected(p: Primitives, r: StoredRecord, wall: int)
    ensures Held(p, r, wall) <==> Protected(p, r, wall)
  {
    TagHolds(p, r.clear.tags);
    FlagHolds(r.clear.metadata);
  }

  lemma ExpiredIsLapsed(r: StoredRecord, policy: Policy, now: int)
    requires forall recordType :: recordType in policy ==> policy[recordType] >= 1
    ensures Expired(r, policy, now) <==> Lapsed(r, policy, now)
  {
    assert policy["default"] >= 1;
  }

  lemma PlanSpelled(p: Primitives, t: Tables, policy: Policy, at: Clocks, plan: Plan)
    requires IsPlan(p, t, policy, at, plan)
    requires forall recordType :: recordType in policy ==> policy[recordType] >= 1
    ensures Spelled(p, t, policy, at, plan)
  {
    forall id | id in t.records && Decode(p, id, t.records[id]).Ok?
      ensures var r := Decode(p, id, t.records[id]).value;
        && (Held(p, r, at.wall) <==> Protected(p, r, at.wall))
        && (Expired(r, policy, at.now) <==> Lapsed(r, policy, at.now))
    {
      HeldIsProtected(p, Decode(p, id, t.records[id]).value, at.wall);
      ExpiredIsLapsed(Decode(p, id, t.records[id]).value, policy, at.now);
    }
  }

  lemma PlanReads(p: Primitives, t: Tables, s: Settings, at: Clocks, plan: Plan)
    requires IsPlan(p, t, PolicyDays(p, s), at, plan) && OldestFirst(p, t, at, plan.candidates)
    ensures Spelled(p, t, PolicyDays(p, s), at, plan) && AgesFall(p, t, at.now, plan.candidates)
  {
    PolicyInRange(p, s);
    PlanSpelled(p, t, PolicyDays(p, s), at, plan);
    AgesRead(p, t, at, plan.candidates);
  }

  lemma AgesRead(p: Primitives, t: Tables, at: Clocks, ids: seq<string>)
    requires OldestFirst(p, t, at, ids)
    ensures AgesFall(p, t, at.now, ids)
  {
    forall i, j | 0 <= i < j < |ids|
      ensures p.roundedDays(Max(0, at.now - t.records[ids[i]].updatedAt))
           >= p.roundedDays(Max(0, at.now - t.records[ids[j]].updatedAt))
    {
      assert AgeKey(p, t, at, ids[i]).AtLeast(AgeKey(p, t, at, ids[j]));
    }
  }

  method MakePlan(store: Store, unlocked: bool, s: Settings, at: Clocks) returns (r: Result<Plan>)
    ensures Readable(store.p, store.State()) && unlocked ==> r.Ok?
    ensures r.Ok? ==> IsPlan(store.p, store.State(), PolicyDays(store.p, s), at, r.value)
    ensures r.Ok? ==> OldestFirst(store.p, store.State(), at, r.value.candidates)
    ensures r.Ok? ==> Spelled(store.p, store.State(), PolicyDays(store.p, s), at, r.value)
    ensures r.Ok? ==> AgesFall(store.p, store.State(), at.now, r.value.candidates)
  {
    var policy := RetentionPolicy(store.p, s);
    var p, t := store.p, store.State();
    var created := map id | id in LiveIds(t) :: Key(-t.records[id].createdAt, 0);
    var rows := OrderBy(created);
    assert forall id :: id in rows <==> id in created;
    if rows != [] && !unlocked {
      return Err;
    }
    var scanned := ScanRows(p, t, rows, policy, at);
    if scanned.Err? {
      return Err;
    }
    var candidates := SortByAge(p, t, at, scanned.value.candidates);
    r := Ok(Plan(candidates, scanned.value.held));
    PlanReads(p, t, s, at, r.value);
  }

  method SortByAge(p: Primitives, t: Tables, at: Clocks, due: seq<string>) returns (candidates: seq<string>)
    requires forall id :: id in due ==> id in t.records
    ensures Distinct(candidates) && (forall id :: id in candidates <==> id in due)
    ensures OldestFirst(p, t, at, candidates)
  {
    var ages := map id | id in due :: AgeKey(p, t, at, id);
    candidates := OrderBy(ages);
    SortedByAge(p, t, at, ages, candidates);
  }

  method ScanRows(p: Primitives, t: Tables, rows: seq<string>, policy: Policy, at: Clocks) returns (r: Result<Plan>)
    requires Distinct(rows) && forall id :: id in rows ==> Live(t, id)
    ensures r.Ok? ==> Planned(p, t, policy, at, rows, r.value)
    ensures r.Err? ==> exists id :: id in rows && Live(t, id) && Decode(p, id, t.records[id]) == Err
  {
    var plan := Plan([], []);
    for i := 0 to |rows|
      invariant Planned(p, t, policy, at, rows[..i], plan)
    {
      var id := rows[i];
      assert id in rows && id !in rows[..i] && rows[..i + 1] == rows[..i] + [id];
      var decoded := Decode(p, id, t.records[id]);
      if decoded.Err? {
        return Err;
      }
      ConsiderPlans(p, t, policy, at, rows[..i], plan, id);
      plan := Consider(p, decoded.value, policy, at, plan);
    }
    assert rows[..|rows|] == rows;
    r := Ok(plan);
  }

  lemma SortedByAge(p: Primitives, t: Tables, at: Clocks, ages: map<string, Key>, ids: seq<string>)
    requires Ordered(ages, ids)
    requires forall id :: id in ages ==> id in t.records && ages[id] == AgeKey(p, t, at, id)
    ensures OldestFirst(p, t, at, ids)
  {
    assert forall id :: id in ids ==> id in ages;
    forall i, j | 0 <= i < j < |ids|
      ensures AgeKey(p, t, at, ids[i]).AtLeast(AgeKey(p, t, at, ids[j]))
    {
      assert ids[i] in ids && ids[j] in ids;
    }
  }

  /** The tables after deleting the listed records one by one; `unlocked[i]` is false when
      the session has lapsed by the i-th deletion, which then raises and is reported. */
  function AfterDeletions(p: Primitives, t: Tables, ids: seq<string>, times: seq<DeleteTimes>,
      unlocked: seq<bool>): Tables
    requires |times| == |unlocked| == |ids|
  {
    if ids == [] then t
    else
      var n := |ids| - 1;
      var before := AfterDeletions(p, t, ids[..n], times[..n], unlocked[..n]);
      if unlocked[n] then AfterDelete(p, before, ids[n], times[n]) else before
  }
}
