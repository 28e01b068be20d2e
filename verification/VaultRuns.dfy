/** The provider vault over whole runs: whatever the sequence of calls, a read gives the last
    value written, and sessions slide. */
module VaultRuns {
  import opened Prelude
  import opened VaultModel
  import opened Vault

  datatype Step =
    | Write(name: string, value: Value, nonce: string)
    | Remove(name: string)
    | Rotate(live: bool, key: Bytes, nonces: string -> string, nonce: string)
    | Lock
    | Unlock(password: string, token: string, now: int)
    | DeviceUnlock(token: string, now: int)

  /** What no call changes: the library, the key of the name hash, the salt and the password. */
  datatype Secrets = Secrets(c: Crypto, indexKey: Bytes, salt: Bytes, password: string) {
    /** A password long enough to be derived that derives the wrapping key. */
    predicate Opens(given: string) { |given| >= 12 && c.derive(given, salt) == c.derive(password, salt) }
  }

  ghost function SecretsOf(v: SecureVault): Secrets
    reads v
    requires v.disk.header.Some?
  {
    Secrets(v.c, v.ring.indexKey, v.disk.header.value.salt, v.password)
  }

  predicate Usable(step: Step) { step.Rotate? ==> |step.key| == KEY_BYTES }

  /** What a step that succeeded, or did not, leaves readable. */
  function Effect(s: Secrets, contents: Contents, step: Step, ok: bool): Contents {
    match step
    case Write(name, value, _) => if ok then Without(s.c, s.indexKey, contents, name)[name := value] else contents
    case Remove(name) => if ok then Without(s.c, s.indexKey, contents, name) else contents
    case _ => contents
  }

  predicate OpenAfter(unlocked: bool, step: Step, ok: bool) {
    if step.Lock? then false else if step.Unlock? || step.DeviceUnlock? then unlocked || ok else unlocked
  }

  /** Which steps succeed: a password by what it derives, the device key always, the others by
      whether the vault is open. */
  predicate Possible(s: Secrets, unlocked: bool, step: Step, ok: bool) {
    match step
    case Rotate(live, _, _, _) => ok == (live && unlocked)
    case Write(_, _, _) => ok == unlocked
    case Remove(_) => ok == unlocked
    case Lock => ok
    case Unlock(password, _, _) => ok == s.Opens(password)
    case DeviceUnlock(_, _) => ok
  }

  function ContentsAfter(s: Secrets, contents: Contents, steps: seq<Step>, outcomes: seq<bool>): Contents
    requires |steps| == |outcomes|
  {
    if steps == [] then contents
    else
      var n := |steps| - 1;
      Effect(s, ContentsAfter(s, contents, steps[..n], outcomes[..n]), steps[n], outcomes[n])
  }

  predicate OpenAfterAll(unlocked: bool, steps: seq<Step>, outcomes: seq<bool>)
    requires |steps| == |outcomes|
  {
    if steps == [] then unlocked
    else
      var n := |steps| - 1;
      OpenAfter(OpenAfterAll(unlocked, steps[..n], outcomes[..n]), steps[n], outcomes[n])
  }

  predicate PossibleRun(s: Secrets, unlocked: bool, steps: seq<Step>, outcomes: seq<bool>) {
    && |steps| == |outcomes|
    && (steps == [] ||
        var n := |steps| - 1;
        && PossibleRun(s, unlocked, steps[..n], outcomes[..n])
        && Possible(s, OpenAfterAll(unlocked, steps[..n], outcomes[..n]), steps[n], outcomes[n]))
  }

  /** A write or a removal. */
  method Work(v: SecureVault, step: Step) returns (ok: bool)
    requires v.Valid() && (step.Write? || step.Remove?)
    modifies v, v.Buffers()
    ensures v.Valid() && SecretsOf(v) == old(SecretsOf(v))
    ensures v.contents == Effect(SecretsOf(v), old(v.contents), step, ok)
    ensures v.rootKey == old(v.rootKey) && ok == (v.rootKey != null)
    ensures fresh(v.Buffers() - old(v.Buffers()))
  {
    match step {
      case Write(name, value, nonce) => ok := v.WriteRecord(name, value, nonce);
      case Remove(name) => ok := v.RemoveRecord(name);
    }
  }

  /** A rotation. */
  method Renew(v: SecureVault, step: Step) returns (ok: bool)
    requires v.Valid() && Usable(step) && step.Rotate?
    modifies v, v.Buffers()
    ensures v.Valid() && SecretsOf(v) == old(SecretsOf(v)) && v.contents == old(v.contents)
    ensures v.rootKey == old(v.rootKey) && ok == (step.live && v.rootKey != null)
    ensures fresh(v.Buffers() - old(v.Buffers()))
  {
    var r := v.RotateDataKey(step.live, step.key, step.nonces, step.nonce);
    ok := r.Ok?;
  }

  method Close(v: SecureVault)
    requires v.Valid()
    modifies v, v.Buffers()
    ensures v.Valid() && SecretsOf(v) == old(SecretsOf(v)) && v.contents == old(v.contents)
    ensures v.rootKey == null && v.Buffers() == {}
  {
    v.Lock();
  }

  /** Unlocking, by password or with the device key. */
  method Reopen(v: SecureVault, step: Step) returns (ok: bool)
    requires v.Valid() && (step.Unlock? || step.DeviceUnlock?)
    modifies v, v.Buffers()
    ensures v.Valid() && SecretsOf(v) == old(SecretsOf(v)) && v.contents == old(v.contents)
    ensures v.rootKey != null <==> ok || old(v.rootKey != null)
    ensures ok == (step.Unlock? ==> SecretsOf(v).Opens(step.password))
    ensures fresh(v.Buffers() - old(v.Buffers()))
  {
    var r;
    if step.Unlock? {
      r := v.Unlock(step.password, step.token, step.now);
    } else {
      r := v.UnlockWithDeviceKey(step.token, step.now);
    }
    ok := r.Ok?;
  }

  /** A run of the steps leads from one openness and contents to another. */
  predicate Ran(s: Secrets, unlocked: bool, contents: Contents, steps: seq<Step>, outcomes: seq<bool>,
      unlocked': bool, contents': Contents) {
    && PossibleRun(s, unlocked, steps, outcomes)
    && contents' == ContentsAfter(s, contents, steps, outcomes)
    && unlocked' == OpenAfterAll(unlocked, steps, outcomes)
  }

  lemma OneMore(s: Secrets, unlocked: bool, contents: Contents, steps: seq<Step>, outcomes: seq<bool>, now: bool,
      held: Contents, step: Step, ok: bool)
    requires Ran(s, unlocked, contents, steps, outcomes, now, held) && Possible(s, now, step, ok)
    ensures Ran(s, unlocked, contents, steps + [step], outcomes + [ok], OpenAfter(now, step, ok),
                Effect(s, held, step, ok))
  {
    assert (steps + [step])[..|steps|] == steps;
    assert (outcomes + [ok])[..|steps|] == outcomes;
  }

  lemma FirstMoved(done: seq<Step>, steps: seq<Step>)
    requires steps != []
    ensures done + [steps[0]] + steps[1..] == done + steps
  {
  }

  /** One call on the vault. */
  method Perform(v: SecureVault, step: Step) returns (ok: bool)
    requires v.Valid() && Usable(step)
    modifies v, v.Buffers()
    ensures v.Valid() && SecretsOf(v) == old(SecretsOf(v))
    ensures v.contents == Effect(SecretsOf(v), old(v.contents), step, ok)
    ensures v.rootKey != null <==> OpenAfter(old(v.rootKey != null), step, ok)
    ensures Possible(SecretsOf(v), old(v.rootKey != null), step, ok)
    ensures fresh(v.Buffers() - old(v.Buffers()))
  {
    if step.Lock? {
      Close(v);
      ok := true;
    } else if step.Unlock? || step.DeviceUnlock? {
      ok := Reopen(v, step);
    } else if step.Rotate? {
      ok := Renew(v, step);
    } else {
      ok := Work(v, step);
    }
  }

  /** Any sequence of calls. */
  method Replay(v: SecureVault, steps: seq<Step>) returns (outcomes: seq<bool>)
    requires v.Valid() && forall step :: step in steps ==> Usable(step)
    modifies v, v.Buffers()
    ensures v.Valid() && SecretsOf(v) == old(SecretsOf(v))
    ensures Ran(SecretsOf(v), old(v.rootKey != null), old(v.contents), steps, outcomes, v.rootKey != null, v.contents)
  {
    outcomes := Continue(v, SecretsOf(v), [], steps, [], v.rootKey != null, v.contents);
    assert [] + steps == steps;
  }

  method Continue(v: SecureVault, ghost s: Secrets, ghost done: seq<Step>, steps: seq<Step>, sofar: seq<bool>,
      ghost unlocked: bool, ghost contents: Contents)
    returns (outcomes: seq<bool>)
    requires v.Valid() && SecretsOf(v) == s && forall step :: step in steps ==> Usable(step)
    requires Ran(s, unlocked, contents, done, sofar, v.rootKey != null, v.contents)
    modifies v, v.Buffers()
    ensures v.Valid() && SecretsOf(v) == s
    ensures Ran(s, unlocked, contents, done + steps, outcomes, v.rootKey != null, v.contents)
    decreases |steps|
  {
    if steps == [] {
      assert done + steps == done;
      return sofar;
    }
    ghost var now, held := v.rootKey != null, v.contents;
    var ok := Perform(v, steps[0]);
    OneMore(s, unlocked, contents, done, sofar, now, held, steps[0], ok);
    FirstMoved(done, steps);
    outcomes := Continue(v, s, done + [steps[0]], steps[1..], sofar + [ok], unlocked, contents);
  }

  /** Step `i` was the last one to touch what `name` is filed under. */
  predicate LastTouch(s: Secrets, name: string, steps: seq<Step>, outcomes: seq<bool>, i: nat)
    requires |steps| == |outcomes|
  {
    && i < |steps| && Touches(s, steps[i], name, outcomes[i])
    && forall j :: i < j < |steps| ==> !Touches(s, steps[j], name, outcomes[j])
  }

  predicate Touches(s: Secrets, step: Step, name: string, ok: bool) {
    ok && (step.Write? || step.Remove?) && s.c.mac(s.indexKey, step.name) == s.c.mac(s.indexKey, name)
  }

  /** What a step that touches a name leaves under it. */
  function Left(step: Step): Option<Value> { if step.Write? then Some(step.value) else None }

  lemma TouchedReads(s: Secrets, contents: Contents, step: Step, name: string, ok: bool)
    requires Touches(s, step, name, ok)
    ensures ReadsAs(s.c, s.indexKey, Effect(s, contents, step, ok), name, Left(step))
  {
    if step.Write? {
      assert step.name in Effect(s, contents, step, ok);
    }
  }

  lemma UntouchedStep(s: Secrets, contents: Contents, step: Step, name: string, ok: bool, found: Option<Value>)
    requires !Touches(s, step, name, ok) && ReadsAs(s.c, s.indexKey, contents, name, found)
    ensures ReadsAs(s.c, s.indexKey, Effect(s, contents, step, ok), name, found)
  {
    if found.Some? {
      var other :| other in contents && s.c.mac(s.indexKey, other) == s.c.mac(s.indexKey, name) &&
          contents[other] == found.value;
      assert other in Effect(s, contents, step, ok);
    }
  }

  /** After any run a name reads as its last successful write, or as nothing when it was last
      removed; rotations, locks and unlocks in between change nothing. */
  lemma {:induction false} ReadsLastWrite(s: Secrets, contents: Contents, steps: seq<Step>, outcomes: seq<bool>,
      name: string, i: nat)
    requires |steps| == |outcomes| && LastTouch(s, name, steps, outcomes, i)
    ensures ReadsAs(s.c, s.indexKey, ContentsAfter(s, contents, steps, outcomes), name, Left(steps[i]))
  {
    var n := |steps| - 1;
    var before := ContentsAfter(s, contents, steps[..n], outcomes[..n]);
    if i < n {
      assert steps[..n][i] == steps[i] && outcomes[..n][i] == outcomes[i];
      assert forall j :: i < j < n ==> !Touches(s, steps[..n][j], name, outcomes[..n][j]);
      ReadsLastWrite(s, contents, steps[..n], outcomes[..n], name, i);
      UntouchedStep(s, before, steps[n], name, outcomes[n], Left(steps[i]));
    } else {
      TouchedReads(s, before, steps[n], name, outcomes[n]);
    }
  }

  /** A name no step touched reads as it did. */
  lemma {:induction false} UntouchedReads(s: Secrets, contents: Contents, steps: seq<Step>, outcomes: seq<bool>,
      name: string, found: Option<Value>)
    requires |steps| == |outcomes| && forall j :: 0 <= j < |steps| ==> !Touches(s, steps[j], name, outcomes[j])
    requires ReadsAs(s.c, s.indexKey, contents, name, found)
    ensures ReadsAs(s.c, s.indexKey, ContentsAfter(s, contents, steps, outcomes), name, found)
  {
    if steps != [] {
      var n := |steps| - 1;
      assert forall j :: 0 <= j < n ==> !Touches(s, steps[..n][j], name, outcomes[..n][j]);
      UntouchedReads(s, contents, steps[..n], outcomes[..n], name, found);
      UntouchedStep(s, ContentsAfter(s, contents, steps[..n], outcomes[..n]), steps[n], name, outcomes[n], found);
    }
  }

  /** The session table after a series of presentations. */
  function Presented(sessions: map<string, int>, calls: seq<(string, int)>): map<string, int> {
    if calls == [] then sessions
    else
      var n := |calls| - 1;
      Touched(Presented(sessions, calls[..n]), calls[n].0, calls[n].1)
  }

  /** Tokens are presented in the order of time. */
  predicate InOrder(start: int, calls: seq<(string, int)>) {
    && (forall j :: 0 <= j < |calls| ==> start <= calls[j].1)
    && forall j, k :: 0 <= j < k < |calls| ==> calls[j].1 <= calls[k].1
  }

  /** When a token opened at `start` was last used, given that every use came in time. */
  function LastUse(token: string, start: int, calls: seq<(string, int)>): int {
    if calls == [] then start
    else
      var n := |calls| - 1;
      if calls[n].0 == token && calls[n].1 < LastUse(token, start, calls[..n]) + SESSION_TTL then calls[n].1
      else LastUse(token, start, calls[..n])
  }

  lemma {:induction false} LastUseBetween(token: string, start: int, calls: seq<(string, int)>, t: int)
    requires InOrder(start, calls) && start <= t && forall j :: 0 <= j < |calls| ==> calls[j].1 <= t
    ensures start <= LastUse(token, start, calls) <= t
  {
    if calls != [] {
      var n := |calls| - 1;
      LastUseBetween(token, start, calls[..n], t);
    }
  }

  /** Sessions slide: a token is accepted exactly when less than the time-to-live has passed
      since its last use in time, whatever other tokens were presented meanwhile. */
  lemma {:induction false} SessionsSlide(sessions: map<string, int>, token: string, start: int,
      calls: seq<(string, int)>, t: int)
    requires token in sessions && sessions[token] == start + SESSION_TTL && InOrder(start, calls)
    requires start <= t && forall j :: 0 <= j < |calls| ==> calls[j].1 <= t
    ensures var table := Presented(sessions, calls);
            (token in table && table[token] > t) <==> t < LastUse(token, start, calls) + SESSION_TTL
  {
    if calls != [] {
      var n := |calls| - 1;
      var now := calls[n].1;
      assert forall j :: 0 <= j < n ==> calls[..n][j] == calls[j];
      LastUseBetween(token, start, calls[..n], now);
      SessionsSlide(sessions, token, start, calls[..n], now);
      SessionsSlide(sessions, token, start, calls[..n], t);
      TouchedAt(Presented(sessions, calls[..n]), calls[n].0, now, token, t);
    }
  }

  /** What one presentation does to one token. */
  lemma TouchedAt(table: map<string, int>, other: string, now: int, token: string, t: int)
    requires now <= t
    ensures var after := Touched(table, other, now);
            (token in after && after[token] > t)
            <==> (token in table && if token == other then table[token] > now &&
                now + SESSION_TTL > t else table[token] > t)
  {
  }
}
