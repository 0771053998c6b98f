/** Third-party bytes, the reported status and forward recovery of the Bootstrap transaction. */
module BootstrapRecovery {
  import opened Contents
  import opened BootstrapModel
  import opened BootstrapSafety

  // ---------------------------------------------------------- third-party bytes

  /** The bytes at `p` are neither the declared preimage nor the declared postimage of `p`. */
  predicate ForeignTo(env: Plan, p: Path, b: Bytes) {
    forall k :: 0 <= k < |env.items| && env.items[k].path == p ==>
      b != env.items[k].post && env.items[k].pre != Some(b)
  }

  predicate Untouched(run: seq<Action>, p: Path) {
    forall i :: 0 <= i < |run| && run[i].Foreign? ==> run[i].path != p
  }

  predicate KeptIn(recovered: map<Slot, Bytes>, p: Path, b: Bytes) {
    exists slot :: slot in recovered && slot.path == p && recovered[slot] == b
  }

  /** What one action other than a third-party write to `p` may do to `p`: nothing, publish it over
      its preimage, or take the postimage back, keeping its bytes when nothing replaces them. */
  ghost predicate Accounted(env: Plan, d: Disk, d': Disk, recovered: map<Slot, Bytes>, p: Path) {
    var k := Find(env, p);
    At(d', p) != At(d, p) ==>
      && k < |env.items|
      && (|| (At(d, p) == PreNode(env.items[k]) && At(d', p) == File(env.items[k].post))
          || (At(d, p) == File(env.items[k].post) && At(d', p) == PreNode(env.items[k])
              && (env.items[k].pre.None? ==> KeptIn(recovered, p, env.items[k].post))))
  }

  ghost predicate Grows(recovered: map<Slot, Bytes>, recovered': map<Slot, Bytes>) {
    forall slot :: slot in recovered ==> slot in recovered' && recovered'[slot] == recovered[slot]
  }

  lemma PublishAccounts(env: Plan, d: Disk, area: StagingArea, i: nat, recovered: map<Slot, Bytes>, p: Path)
    requires i < |env.items|
    ensures var d' := Publish(env, d, area, i); d'.Some? ==> Accounted(env, d, d'.value, recovered, p)
  {
  }

  lemma UndoAccounts(env: Plan, d: Disk, recovered: map<Slot, Bytes>, seen: Disk, i: nat, q: Path, p: Path)
    ensures var u := Undo(env, d, recovered, seen, i, q);
            u.Some? ==> Accounted(env, d, u.value.formal, u.value.recovered, p) && Grows(recovered, u.value.recovered)
  {
    var u := Undo(env, d, recovered, seen, i, q);
    if p == q && u.Some? && Slot(i, q) in u.value.recovered {
      assert u.value.recovered[Slot(i, q)] == u.value.recovered[Slot(i, q)];
    }
  }

  lemma AdvancingAccounts(env: Plan, s: State, p: Path)
    requires s.proc.Advancing?
    ensures var s' := TickAdvancing(env, s);
            Accounted(env, s.formal, s'.formal, s'.recovered, p) && s'.recovered == s.recovered
  {
    if s.proc.next < |env.items| {
      PublishAccounts(env, s.formal, s.staging, s.proc.next, s.recovered, p);
    }
  }

  lemma RollingAccounts(env: Plan, s: State, p: Path)
    requires s.proc.RollingBack?
    ensures var s' := TickRollingBack(env, s);
            Accounted(env, s.formal, s'.formal, s'.recovered, p) && Grows(s.recovered, s'.recovered)
  {
    var RollingBack(seen, i, moved) := s.proc;
    if i < |RollbackOrder(Activated(env, seen))| {
      var q := RollbackOrder(Activated(env, seen))[i];
      UndoAccounts(env, s.formal, s.recovered, seen, i, q, p);
      WalkedRound(env, s, q);
    }
  }

  /** Only publication and Rollback's loop write formal paths. */
  lemma OtherTicksKeepFormal(env: Plan, s: State)
    requires !s.proc.Advancing? && !s.proc.RollingBack?
    ensures Tick(env, s).formal == s.formal && Tick(env, s).recovered == s.recovered
  {
  }

  /** No step of Apply, Resume or Rollback destroys bytes it does not own. It holds in every state,
      reachable or not, and on whatever a torn inspection read. */
  lemma ActionAccounts(env: Plan, s: State, a: Action, p: Path)
    requires a.Foreign? ==> a.path != p
    ensures var s' := Do(env, s, a);
            Accounted(env, s.formal, s'.formal, s'.recovered, p) && Grows(s.recovered, s'.recovered)
  {
    if a.Step? {
      if s.proc.Advancing? {
        AdvancingAccounts(env, s, p);
      } else if s.proc.RollingBack? {
        RollingAccounts(env, s, p);
      } else {
        OtherTicksKeepFormal(env, s);
      }
    }
  }

  /** Third-party bytes survive every run, with an adversary free to write any other path, and any
      staging file, between any two steps. */
  lemma {:induction false} ThirdPartyBytesSurvive(env: Plan, s: State, run: seq<Action>, p: Path, b: Bytes)
    requires ForeignTo(env, p, b) && At(s.formal, p) == File(b) && Untouched(run, p)
    ensures At(Exec(env, s, run).formal, p) == File(b)
    decreases |run|
  {
    if run != [] {
      var s' := Do(env, s, run[0]);
      ActionAccounts(env, s, run[0], p);
      ThirdPartyBytesSurvive(env, s', run[1..], p, b);
    }
  }

  /** A published path that a run took back holds its preimage again, and bytes that nothing replaced
      are still in the recovered directory at the end. */
  lemma {:induction false} PostimagesAreNeverLost(env: Plan, s: State, run: seq<Action>, k: nat)
    requires k < |env.items| && Untouched(run, env.items[k].path)
    requires At(s.formal, env.items[k].path) in {File(env.items[k].post), PreNode(env.items[k])}
    ensures var e := Exec(env, s, run);
            var p := env.items[k].path;
            && At(e.formal, p) in {File(env.items[k].post), PreNode(env.items[k])}
            && Grows(s.recovered, e.recovered)
            && ((At(s.formal, p) == File(env.items[k].post) && At(e.formal, p) == Absent)
                ==> KeptIn(e.recovered, p, env.items[k].post))
    decreases |run|
  {
    if run != [] {
      var s' := Do(env, s, run[0]);
      ActionAccounts(env, s, run[0], env.items[k].path);
      PostimagesAreNeverLost(env, s', run[1..], k);
    }
  }

  // ------------------------------------------------------------------- status

  datatype Phase = Conflict | RequiredActive | RequiredInactive | RolledBack | Applied | NotFound | NoTerminalReceipt

  /** The status command: the phase of an active transaction comes from the disk alone. */
  function Report(env: Plan, s: State): Phase {
    if s.intent then
      if !(Orderly(env, s.formal) && StagingIntact(env, s.staging)) then Conflict
      else if Activated(env, s.formal) then RequiredActive else RequiredInactive
    else if s.archive then
      if s.rollback.Some? then RolledBack else if s.completion then Applied else NoTerminalReceipt
    else NotFound
  }

  // ----------------------------------------------------------- forward recovery

  predicate ForwardRun(run: seq<Action>) {
    QuietRun(run) && forall i :: 0 <= i < |run| ==> run[i] != Start(Rollback)
  }

  predicate ForwardPoint(proc: Process) {
    !(proc.RollbackInspecting? || proc.RollingBack? || proc.RollbackVerifying? || proc.WritingReceipt?)
  }

  /** No state is split while nothing rolls back. */
  ghost predicate ForwardInv(env: Plan, s: State) {
    && Inv(env, s) && ForwardPoint(s.proc) && s.rollback.None?
    && (s.intent || s.archive ==> exists m :: PrefixAt(env, s.formal, m))
  }

  lemma ForwardAction(env: Plan, s: State, a: Action)
    requires ForwardInv(env, s) && Quiet(a) && a != Start(Rollback)
    ensures ForwardInv(env, Do(env, s, a))
  {
    QuietActionKeepsInv(env, s, a);
    if a.Step? {
      ForwardTick(env, s);
    }
  }

  lemma ForwardTick(env: Plan, s: State)
    requires ForwardInv(env, s)
    ensures var s' := Tick(env, s);
            && ForwardPoint(s'.proc) && s'.rollback.None?
            && (s'.intent || s'.archive ==> exists m :: PrefixAt(env, s'.formal, m))
  {
    if s.proc.Advancing? {
      var m :| s.proc.next <= m && PrefixAt(env, s.formal, m);
      AdvancingTick(env, s, m);
    } else {
      OtherTicksKeepFormal(env, s);
    }
  }

  lemma {:induction false} ForwardRunKeepsInv(env: Plan, s: State, run: seq<Action>)
    requires ForwardInv(env, s) && ForwardRun(run)
    ensures ForwardInv(env, Exec(env, s, run))
    decreases |run|
  {
    if run != [] {
      ForwardAction(env, s, run[0]);
      ForwardRunKeepsInv(env, Do(env, s, run[0]), run[1..]);
    }
  }

  /** Without Rollback, every crash leaves the postimages as a prefix with staging intact, so an active
      transaction never reports a conflict. */
  lemma ForwardNeverConflicts(env: Plan, s: State, run: seq<Action>)
    requires Initial(s) && ForwardRun(run)
    ensures var e := Exec(env, s, run);
            e.intent ==>
              && StagingIntact(env, e.staging)
              && (exists m :: PrefixAt(env, e.formal, m))
              && Report(env, e) in {RequiredActive, RequiredInactive}
  {
    ForwardRunKeepsInv(env, s, run);
    var e := Exec(env, s, run);
    if e.intent {
      var m :| PrefixAt(env, e.formal, m);
      PrefixStates(env, e.formal, m);
    }
  }

  /** `k` uninterrupted steps. */
  ghost function StepN(env: Plan, s: State, k: nat): State
    decreases k
  {
    if k == 0 then s else StepN(env, Tick(env, s), k - 1)
  }

  lemma {:induction false} StepNIsExec(env: Plan, s: State, k: nat)
    ensures Exec(env, s, Steps(k)) == StepN(env, s, k)
    decreases k
  {
    if k == 0 {
      assert Steps(k) == [];
    } else {
      assert Steps(k)[0] == Step && Steps(k)[1..] == Steps(k - 1);
      StepNIsExec(env, Tick(env, s), k - 1);
    }
  }

  lemma {:induction false} StepNAdd(env: Plan, s: State, j: nat, k: nat)
    ensures StepN(env, s, j + k) == StepN(env, StepN(env, s, j), k)
    decreases j
  {
    if j != 0 {
      StepNAdd(env, Tick(env, s), j - 1, k);
    }
  }

  /** The process runs from `s` to `e` without interruption. */
  ghost predicate Reaches(env: Plan, s: State, e: State) {
    exists k: nat :: StepN(env, s, k) == e
  }

  lemma ReachesItself(env: Plan, s: State)
    ensures Reaches(env, s, s)
  {
    assert StepN(env, s, 0) == s;
  }

  lemma ReachesFurther(env: Plan, s: State, s': State, e: State)
    requires Tick(env, s) == s' && Reaches(env, s', e)
    ensures Reaches(env, s, e)
  {
    var k: nat :| StepN(env, s', k) == e;
    assert StepN(env, s, k + 1) == e;
  }

  lemma ReachesThrough(env: Plan, s: State, s': State, e: State)
    requires Reaches(env, s, s') && Reaches(env, s', e)
    ensures Reaches(env, s, e)
  {
    var j: nat :| StepN(env, s, j) == s';
    var k: nat :| StepN(env, s', k) == e;
    StepNAdd(env, s, j, k);
  }

  lemma ReachesNext(env: Plan, s: State, at: State, next: State)
    requires Reaches(env, s, at) && Tick(env, at) == next
    ensures Reaches(env, s, next)
  {
    ReachesItself(env, next);
    ReachesFurther(env, at, next, next);
    ReachesThrough(env, s, at, next);
  }

  /** The command `op`, started at `s` and not interrupted, comes to `e`. */
  ghost predicate Performs(env: Plan, s: State, op: Op, e: State) {
    exists k: nat :: Exec(env, s, [Start(op)] + Steps(k)) == e
  }

  lemma PerformsFrom(env: Plan, s: State, op: Op, e: State)
    requires Reaches(env, Begin(s, op), e)
    ensures Performs(env, s, op, e)
  {
    var k: nat :| StepN(env, Begin(s, op), k) == e;
    StepNIsExec(env, Begin(s, op), k);
    assert ([Start(op)] + Steps(k))[1..] == Steps(k);
    assert Exec(env, s, [Start(op)] + Steps(k)) == e;
  }

  /** `e` is `s` with everything published, completed and archived, and nothing else changed. */
  ghost predicate Finished(env: Plan, s: State, e: State) {
    && FullyPublished(env, e.formal)
    && e == s.(formal := e.formal, intent := false, archive := true, completion := true, proc := Idle)
  }

  lemma ArchivingFinishes(env: Plan, s: State)
    requires s.proc == Archiving
    ensures Reaches(env, s, s.(archive := true, intent := false, proc := Idle))
  {
    var s1 := s.(archive := true, proc := Removing);
    var s2 := s.(archive := true, intent := false, proc := Idle);
    ReachesItself(env, s2);
    ReachesFurther(env, s1, s2, s2);
    ReachesFurther(env, s, s1, s2);
  }

  lemma VerifiedFinishes(env: Plan, s: State)
    requires Distinct(env) && FullyPublished(env, s.formal) && s.proc == Verifying
    ensures Reaches(env, s, s.(completion := true, archive := true, intent := false, proc := Idle))
  {
    PrefixStates(env, s.formal, |env.items|);
    var s1 := s.(proc := Completing);
    var s2 := s.(completion := true, proc := Archiving);
    var e := s.(completion := true, archive := true, intent := false, proc := Idle);
    ArchivingFinishes(env, s2);
    ReachesFurther(env, s1, s2, e);
    ReachesFurther(env, s, s1, e);
  }

  ghost predicate Recoverable(env: Plan, s: State, m: int) {
    Distinct(env) && StagingIntact(env, s.staging) && PrefixAt(env, s.formal, m)
  }

  /** `e` is `s` with everything published, about to be verified, and nothing else changed. */
  ghost predicate ReadyToVerify(env: Plan, s: State, e: State) {
    FullyPublished(env, e.formal) && e == s.(formal := e.formal, proc := Verifying)
  }

  /** advanceTransaction from any prefix publishes the rest. The number of preimage targets is the
      termination measure. */
  lemma {:induction false} AdvancePublishes(env: Plan, s: State, m: int) returns (e: State)
    requires Recoverable(env, s, m)
    requires s.proc.Advancing? && s.proc.seen == s.formal && s.proc.next <= m && s.proc.next < |env.items|
    ensures ReadyToVerify(env, s, e) && Reaches(env, s, e)
    ensures m == |env.items| ==> e.formal == s.formal
    decreases |env.items| - m, |env.items| - s.proc.next
  {
    var i := s.proc.next;
    var s1 := TickAdvancing(env, s);
    AdvancingTick(env, s, m);
    if i == |env.items| - 1 {
      e := s1;
      ReachesItself(env, e);
    } else if i < m {
      e := AdvancePublishes(env, s1, m);
    } else {
      e := InspectPublishes(env, s1, m + 1);
    }
    ReachesFurther(env, s, s1, e);
  }

  lemma {:induction false} InspectPublishes(env: Plan, s: State, m: int) returns (e: State)
    requires Recoverable(env, s, m) && s.proc.Inspecting? && s.proc.next <= m && s.proc.next < |env.items|
    ensures ReadyToVerify(env, s, e) && Reaches(env, s, e)
    ensures m == |env.items| ==> e.formal == s.formal
    decreases |env.items| - m, |env.items| + 1
  {
    PrefixStates(env, s.formal, m);
    var s1 := s.(proc := Advancing(s.formal, s.proc.next));
    e := AdvancePublishes(env, s1, m);
    ReachesFurther(env, s, s1, e);
  }

  /** ... and then completes and archives. */
  lemma InspectConverges(env: Plan, s: State, m: int) returns (e: State)
    requires Recoverable(env, s, m) && s.proc.Inspecting? && s.proc.next <= m && s.proc.next < |env.items|
    ensures Finished(env, s, e) && Reaches(env, s, e)
    ensures m == |env.items| ==> e.formal == s.formal
  {
    var v := InspectPublishes(env, s, m);
    VerifiedFinishes(env, v);
    e := v.(completion := true, archive := true, intent := false, proc := Idle);
    ReachesThrough(env, s, v, e);
  }

  /** Resume, or Apply again, from any interrupted prefix ends with everything published and archived. */
  lemma ResumeConverges(env: Plan, s: State, m: int, op: Op) returns (e: State)
    requires Inv(env, s) && s.proc == Idle && s.intent && PrefixAt(env, s.formal, m)
    requires op == Resume || (op == Apply && !s.archive)
    ensures Performs(env, s, op, e) && Finished(env, s, e)
    ensures m == |env.items| ==> e.formal == s.formal
  {
    e := InspectConverges(env, s.(proc := Inspecting(0)), m);
    PerformsFrom(env, s, op, e);
  }

  /** Once archived and no longer active, no Apply, Resume or Rollback changes a byte: repeated calls are
      idempotent. */
  lemma {:induction false} ArchivedIsFinal(env: Plan, s: State, run: seq<Action>)
    requires s.archive && !s.intent && s.proc == Idle && QuietRun(run)
    ensures Exec(env, s, run) == s
    decreases |run|
  {
    if run != [] {
      assert Do(env, s, run[0]) == s;
      ArchivedIsFinal(env, s, run[1..]);
    }
  }

  /** stageEnvelope: files left by an earlier, interrupted staging are kept, the missing ones are created. */
  lemma {:induction false} StagingConverges(env: Plan, s: State) returns (e: State)
    requires s.proc.Staging? && s.proc.next <= |env.items|
    requires forall j :: 0 <= j < |env.items| ==> StagedAt(s.staging, j) in {Absent, File(env.items[j].post)}
    requires forall j :: 0 <= j < s.proc.next ==> StagedAt(s.staging, j) == File(env.items[j].post)
    ensures Reaches(env, s, e) && StagingIntact(env, e.staging)
    ensures e == s.(staging := e.staging, proc := SavingIntent)
    decreases |env.items| - s.proc.next
  {
    var s1 := TickStaging(env, s);
    if s.proc.next == |env.items| {
      e := s1;
      ReachesItself(env, e);
    } else {
      assert StagedAt(s.staging, s.proc.next) in {Absent, File(env.items[s.proc.next].post)};
      assert forall j :: 0 <= j < |env.items| && j != s.proc.next ==> StagedAt(s1.staging, j) == StagedAt(s.staging, j);
      e := StagingConverges(env, s1);
    }
    ReachesFurther(env, s, s1, e);
  }

  /** A disk that the first Apply admits, with at most the staging files of an interrupted Apply. */
  predicate FreshDisk(env: Plan, s: State) {
    && Initial(s) && Distinct(env) && PrefixAt(env, s.formal, 0)
    && forall j :: 0 <= j < |env.items| ==> StagedAt(s.staging, j) in {Absent, File(env.items[j].post)}
  }

  /** The first Apply goes on to staging exactly when nothing is published and publishing Root changes it: a
      Root preimage equal to its postimage reads as already published. */
  lemma ApplyAdmits(env: Plan, s: State)
    requires Initial(s)
    ensures Tick(env, Begin(s, Apply)).proc.Staging? <==> Distinct(env) && PrefixAt(env, s.formal, 0)
  {
    assert Begin(s, Apply) == s.(proc := Preparing);
    if Distinct(env) && PrefixAt(env, s.formal, 0) {
      PrefixStates(env, s.formal, 0);
    }
    if Orderly(env, s.formal) && ReplaysPrepare(env, s.formal) {
      ReplayedIsFresh(env, s.formal);
    }
  }

  lemma FreshApplyPublishes(env: Plan, s: State) returns (e: State)
    requires FreshDisk(env, s)
    ensures Reaches(env, Begin(s, Apply), e) && FullyPublished(env, e.formal)
    ensures e == s.(formal := e.formal, staging := e.staging, intent := true, proc := Verifying)
  {
    PrefixStates(env, s.formal, 0);
    var s0 := s.(proc := Preparing);
    var s1 := s.(proc := Staging(0));
    assert ReplaysPrepare(env, s.formal);
    var s2 := StagingConverges(env, s1);
    var s3 := s2.(intent := true, proc := Inspecting(0));
    e := InspectPublishes(env, s3, 0);
    ReachesFurther(env, s2, s3, e);
    ReachesThrough(env, s1, s2, e);
    ReachesFurther(env, s0, s1, e);
  }

  /** The first Apply on such a disk publishes everything and archives. */
  lemma FreshApplyConverges(env: Plan, s: State) returns (e: State)
    requires FreshDisk(env, s)
    ensures Performs(env, s, Apply, e)
    ensures FullyPublished(env, e.formal) && e.archive && e.completion && !e.intent && e.rollback.None?
  {
    var v := FreshApplyPublishes(env, s);
    VerifiedFinishes(env, v);
    e := v.(completion := true, archive := true, intent := false, proc := Idle);
    ReachesThrough(env, Begin(s, Apply), v, e);
    PerformsFrom(env, s, Apply, e);
  }
}
