/** When the Bootstrap transaction refuses to move, said of files and bytes alone, in every state and with third
    parties about; and what Status reports. */
module BootstrapRefusals {
  import opened Contents
  import opened BootstrapModel
  import opened BootstrapSafety
  import opened BootstrapRecovery

  // --------------------------------------------------------------- reference definitions

  /** Neither absent nor one of the two declared contents. */
  ghost predicate Alien(t: Target, node: Node) {
    node != Absent && node != File(t.post) && (t.pre.Some? ==> node != File(t.pre.value))
  }

  ghost predicate StagedWrong(env: Plan, area: StagingArea) {
    exists k :: 0 <= k < |env.items| && StagedAt(area, k) != File(env.items[k].post)
  }

  ghost predicate HasAlien(env: Plan, d: Disk) {
    exists k :: 0 <= k < |env.items| && Alien(env.items[k], At(d, env.items[k].path))
  }

  /** A published item follows one that is not. */
  ghost predicate OutOfOrder(env: Plan, d: Disk) {
    exists j, k :: 0 <= j < k < |env.items|
                   && At(d, env.items[j].path) != File(env.items[j].post) && At(d, env.items[k].path) == File(env.items[k].post)
  }

  ghost predicate EveryPost(env: Plan, d: Disk) {
    forall k :: 0 <= k < |env.items| ==> At(d, env.items[k].path) == File(env.items[k].post)
  }

  /** Every target is absent or has its declared preimage, and that is not its postimage. */
  ghost predicate EveryPre(env: Plan, d: Disk) {
    forall k :: 0 <= k < |env.items| ==>
      At(d, env.items[k].path) != File(env.items[k].post) && !Alien(env.items[k], At(d, env.items[k].path))
  }

  /** Some reason to refuse. */
  ghost predicate Conflicted(env: Plan, d: Disk, area: StagingArea) {
    StagedWrong(env, area) || HasAlien(env, d) || OutOfOrder(env, d)
  }

  // ------------------------------------------------------------------ what an inspection finds

  lemma ClassifyMeans(node: Node, t: Target)
    ensures Classify(node, t) == Postimage <==> node == File(t.post)
    ensures Classify(node, t) == Preimage <==> node != File(t.post) && !Alien(t, node)
  {
  }

  /** The conflict rule, the activation flag and both completeness tests, on the bytes. */
  lemma InspectionMeans(env: Plan, d: Disk)
    ensures Orderly(env, d) <==> !HasAlien(env, d) && !OutOfOrder(env, d)
    ensures Activated(env, d) <==> At(d, Root) == File(env.items[RootIndex(env)].post)
    ensures AllPostimages(env, d) <==> EveryPost(env, d)
    ensures AllPreimages(env, d) <==> EveryPre(env, d)
  {
    forall k | 0 <= k < |env.items|
      ensures StateOf(env, d, k) == Postimage <==> At(d, env.items[k].path) == File(env.items[k].post)
      ensures StateOf(env, d, k) == Preimage <==>
              At(d, env.items[k].path) != File(env.items[k].post) && !Alien(env.items[k], At(d, env.items[k].path))
    {
      ClassifyMeans(At(d, env.items[k].path), env.items[k]);
    }
  }

  /** An inspection with staging accepts exactly without a conflict. */
  lemma ConflictMeans(env: Plan, d: Disk, area: StagingArea)
    ensures Orderly(env, d) && StagingIntact(env, area) <==> !Conflicted(env, d, area)
  {
    InspectionMeans(env, d);
  }

  lemma CompleteMeans(env: Plan, d: Disk)
    ensures AllPostimages(env, d) <==> EveryPost(env, d)
  {
    InspectionMeans(env, d);
  }

  lemma RestoredMeans(env: Plan, d: Disk)
    ensures AllPreimages(env, d) <==> EveryPre(env, d)
  {
    InspectionMeans(env, d);
  }

  lemma AlienIsConflict(env: Plan, d: Disk, k: nat)
    requires k < |env.items| && Alien(env.items[k], At(d, env.items[k].path))
    ensures !Orderly(env, d)
  {
    InspectionMeans(env, d);
  }

  lemma OutOfOrderIsConflict(env: Plan, d: Disk, j: nat, k: nat)
    requires j < k < |env.items|
    requires At(d, env.items[j].path) != File(env.items[j].post) && At(d, env.items[k].path) == File(env.items[k].post)
    ensures !Orderly(env, d)
  {
    InspectionMeans(env, d);
  }

  /** Each phase, from the disk and the receipts. */
  lemma StatusMeans(env: Plan, s: State)
    ensures Report(env, s) == Conflict <==>
            s.intent && Conflicted(env, s.formal, s.staging)
    ensures Report(env, s) == RequiredActive <==>
            && s.intent && !Conflicted(env, s.formal, s.staging)
            && At(s.formal, Root) == File(env.items[RootIndex(env)].post)
    ensures Report(env, s) == RequiredInactive <==>
            && s.intent && !Conflicted(env, s.formal, s.staging)
            && At(s.formal, Root) != File(env.items[RootIndex(env)].post)
    ensures Report(env, s) == RolledBack <==> !s.intent && s.archive && s.rollback.Some?
    ensures Report(env, s) == Applied <==> !s.intent && s.archive && s.rollback.None? && s.completion
    ensures Report(env, s) == NoTerminalReceipt <==> !s.intent && s.archive && s.rollback.None? && !s.completion
    ensures Report(env, s) == NotFound <==> !s.intent && !s.archive
  {
    InspectionMeans(env, s.formal);
  }

  // ------------------------------------------------------------------------ refusals over runs

  /** What one action of a third party makes of the files. */
  function Third(s: State, a: Action): State {
    match a
    case Foreign(p, node) => s.(formal := s.formal[p := node])
    case ForeignStaging(i, node) => s.(staging := s.staging[i := node])
    case _ => s
  }

  /** What third parties alone would have made of `s`. */
  function World(s: State, run: seq<Action>): State
    decreases |run|
  {
    if run == [] then s else World(Third(s, run[0]), run[1..])
  }

  /** The same files, wherever the process stands. */
  predicate SameFiles(s: State, t: State) { s == t.(proc := s.proc) }

  lemma {:induction false} WorldIgnoresProcess(s: State, t: State, run: seq<Action>)
    requires SameFiles(s, t)
    ensures SameFiles(World(s, run), World(t, run))
    decreases |run|
  {
    if run != [] {
      WorldIgnoresProcess(Third(s, run[0]), Third(t, run[0]), run[1..]);
    }
  }

  /** Where a command that is going to be refused can stand. */
  predicate Waiting(proc: Process) {
    proc == Idle || proc == Inspecting(0) || proc == RollbackInspecting
  }

  /** What an inspection that `a` may be would read is refused. */
  ghost predicate RefusesAt(env: Plan, s: State, a: Action) {
    !(Orderly(env, if a.Torn? then a.seen else s.formal) && StagingIntact(env, s.staging))
  }

  lemma RefusedAction(env: Plan, s: State, a: Action)
    requires s.intent && Waiting(s.proc) && RefusesAt(env, s, a)
    ensures SameFiles(Do(env, s, a), Third(s, a)) && Waiting(Do(env, s, a).proc)
  {
    if a.Step? && Reads(s.proc) {
      assert Tick(env, s) == s.(proc := Idle);
    }
  }

  predicate LeavesStaged(run: seq<Action>, k: nat) {
    forall i :: 0 <= i < |run| && run[i].ForeignStaging? ==> run[i].index != k
  }

  /** While one staged file of an active transaction is not its declared postimage, every run of Apply, Resume,
      Rollback and crashes, torn inspections included, leaves exactly what third parties made of the files. */
  lemma {:induction false} WrongStagingStops(env: Plan, s: State, run: seq<Action>, k: nat)
    requires s.intent && Waiting(s.proc) && k < |env.items| && StagedAt(s.staging, k) != File(env.items[k].post)
    requires LeavesStaged(run, k)
    ensures SameFiles(Exec(env, s, run), World(s, run))
    decreases |run|
  {
    if run != [] {
      var s' := Do(env, s, run[0]);
      RefusedAction(env, s, run[0]);
      WrongStagingStops(env, s', run[1..], k);
      WorldIgnoresProcess(s', Third(s, run[0]), run[1..]);
    }
  }

  predicate NoTorn(run: seq<Action>) { forall i :: 0 <= i < |run| ==> !run[i].Torn? }

  /** While one target of an active transaction holds anything but its two declared contents, the same. */
  lemma {:induction false} AlienStops(env: Plan, s: State, run: seq<Action>, k: nat)
    requires s.intent && Waiting(s.proc) && NoTorn(run)
    requires k < |env.items| && Alien(env.items[k], At(s.formal, env.items[k].path)) && Untouched(run, env.items[k].path)
    ensures SameFiles(Exec(env, s, run), World(s, run))
    decreases |run|
  {
    if run != [] {
      AlienIsConflict(env, s.formal, k);
      var s' := Do(env, s, run[0]);
      RefusedAction(env, s, run[0]);
      AlienStops(env, s', run[1..], k);
      WorldIgnoresProcess(s', Third(s, run[0]), run[1..]);
    }
  }

  /** While one target is published and an earlier one is not, the same. */
  lemma {:induction false} OutOfOrderStops(env: Plan, s: State, run: seq<Action>, j: nat, k: nat)
    requires s.intent && Waiting(s.proc) && NoTorn(run) && j < k < |env.items|
    requires At(s.formal, env.items[j].path) != File(env.items[j].post) && Untouched(run, env.items[j].path)
    requires At(s.formal, env.items[k].path) == File(env.items[k].post) && Untouched(run, env.items[k].path)
    ensures SameFiles(Exec(env, s, run), World(s, run))
    decreases |run|
  {
    if run != [] {
      OutOfOrderIsConflict(env, s.formal, j, k);
      var s' := Do(env, s, run[0]);
      RefusedAction(env, s, run[0]);
      OutOfOrderStops(env, s', run[1..], j, k);
      WorldIgnoresProcess(s', Third(s, run[0]), run[1..]);
    }
  }

  // --------------------------------------------------------------------- receipts and staging

  /** Past the proof of the result. */
  predicate PastProof(proc: Process) {
    proc.Completing? || proc.Archiving? || proc.Removing? || proc.WritingReceipt?
  }

  predicate SameReceipts(s: State, t: State) {
    s.completion == t.completion && s.rollback == t.rollback && s.archive == t.archive
  }

  lemma StagingBeforeProof(env: Plan, s: State)
    requires s.proc.Staging?
    ensures !PastProof(TickStaging(env, s).proc)
  {
  }

  lemma AdvancingBeforeProof(env: Plan, s: State)
    requires s.proc.Advancing?
    ensures !PastProof(TickAdvancing(env, s).proc)
  {
    var i := s.proc.next;
    if i < |env.items| {
      var published := Publish(env, s.formal, s.staging, i);
      match StateOf(env, s.proc.seen, i) {
        case Postimage =>
        case Preimage => assert published.None? ==> TickAdvancing(env, s).proc == Idle;
        case _ =>
      }
    }
  }

  lemma RollingBeforeProof(env: Plan, s: State)
    requires s.proc.RollingBack?
    ensures !PastProof(TickRollingBack(env, s).proc)
  {
    var order := RollbackOrder(Activated(env, s.proc.seen));
    if s.proc.next < |order| {
      WalkedRound(env, s, order[s.proc.next]);
    }
  }

  lemma AlienRead(env: Plan, s: State, k: nat)
    requires Reads(s.proc) && k < |env.items| && Alien(env.items[k], At(s.formal, env.items[k].path))
    ensures !PastProof(After(env, s.proc, s.staging, s.formal))
  {
    ClassifyMeans(At(s.formal, env.items[k].path), env.items[k]);
    assert StateOf(env, s.formal, k) != Preimage && StateOf(env, s.formal, k) != Postimage;
  }

  lemma AlienTick(env: Plan, s: State, k: nat)
    requires !PastProof(s.proc) && k < |env.items| && Alien(env.items[k], At(s.formal, env.items[k].path))
    ensures !PastProof(Tick(env, s).proc) && SameReceipts(Tick(env, s), s)
  {
    if s.proc.Staging? {
      StagingBeforeProof(env, s);
    } else if s.proc.Advancing? {
      AdvancingBeforeProof(env, s);
    } else if s.proc.RollingBack? {
      RollingBeforeProof(env, s);
    } else if Reads(s.proc) {
      AlienRead(env, s, k);
    }
  }

  /** Wherever a command stands before its proof of the result, no receipt is written and nothing is archived over
      a target that holds anything but its two declared contents. */
  lemma {:induction false} NoReceiptOverAlien(env: Plan, s: State, run: seq<Action>, k: nat)
    requires !PastProof(s.proc) && NoTorn(run)
    requires k < |env.items| && Alien(env.items[k], At(s.formal, env.items[k].path)) && Untouched(run, env.items[k].path)
    ensures SameReceipts(Exec(env, s, run), s)
    decreases |run|
  {
    if run != [] {
      var s' := Do(env, s, run[0]);
      ActionAccounts(env, s, run[0], env.items[k].path);
      if run[0].Step? {
        AlienTick(env, s, k);
      }
      NoReceiptOverAlien(env, s', run[1..], k);
    }
  }

  /** A completion receipt is written only over all postimages, a rollback receipt only over none. */
  lemma ProofComesFirst(env: Plan, s: State)
    ensures s.proc.Verifying? ==> (Tick(env, s).proc.Completing? <==> EveryPost(env, s.formal))
    ensures s.proc.RollbackVerifying? ==> (Tick(env, s).proc.WritingReceipt? <==> EveryPre(env, s.formal))
  {
    CompleteMeans(env, s.formal);
    RestoredMeans(env, s.formal);
  }

  lemma StagedTick(env: Plan, s: State, k: nat)
    requires StagedAt(s.staging, k) != Absent
    ensures StagedAt(Tick(env, s).staging, k) == StagedAt(s.staging, k)
  {
  }

  /** Only third parties ever change a staged file that exists. */
  lemma {:induction false} StagedFilesStay(env: Plan, s: State, run: seq<Action>, k: nat)
    requires StagedAt(s.staging, k) != Absent
    requires LeavesStaged(run, k)
    ensures StagedAt(Exec(env, s, run).staging, k) == StagedAt(s.staging, k)
    decreases |run|
  {
    if run != [] {
      if run[0].Step? {
        StagedTick(env, s, k);
      }
      StagedFilesStay(env, Do(env, s, run[0]), run[1..], k);
    }
  }

  /** Where a transaction without an intent can stand while a staged file of it is wrong. */
  predicate BeforeIntent(proc: Process, k: nat) {
    proc == Idle || proc == Preparing || (proc.Staging? && proc.next <= k)
  }

  lemma WrongStagedTick(env: Plan, s: State, k: nat)
    requires !s.intent && BeforeIntent(s.proc, k) && k < |env.items|
    requires StagedAt(s.staging, k) != Absent && StagedAt(s.staging, k) != File(env.items[k].post)
    ensures var s' := Tick(env, s); !s'.intent && BeforeIntent(s'.proc, k) && s'.formal == s.formal
  {
  }

  lemma WrongStagedAction(env: Plan, s: State, a: Action, k: nat, p: Path)
    requires !s.intent && BeforeIntent(s.proc, k) && k < |env.items|
    requires StagedAt(s.staging, k) != Absent && StagedAt(s.staging, k) != File(env.items[k].post)
    requires (a.ForeignStaging? ==> a.index != k) && (a.Foreign? ==> a.path != p)
    ensures var s' := Do(env, s, a);
            && !s'.intent && BeforeIntent(s'.proc, k)
            && StagedAt(s'.staging, k) == StagedAt(s.staging, k) && At(s'.formal, p) == At(s.formal, p)
  {
    if a.Step? {
      WrongStagedTick(env, s, k);
      StagedTick(env, s, k);
    }
  }

  /** A foreign file in the staging directory keeps the first Apply from ever saving an intent or publishing: no
      path changes but by third parties. */
  lemma {:induction false} WrongStagedFileBlocksApply(env: Plan, s: State, run: seq<Action>, k: nat, p: Path)
    requires !s.intent && BeforeIntent(s.proc, k) && k < |env.items| && LeavesStaged(run, k) && Untouched(run, p)
    requires StagedAt(s.staging, k) != Absent && StagedAt(s.staging, k) != File(env.items[k].post)
    ensures !Exec(env, s, run).intent && At(Exec(env, s, run).formal, p) == At(s.formal, p)
    decreases |run|
  {
    if run != [] {
      WrongStagedAction(env, s, run[0], k, p);
      WrongStagedFileBlocksApply(env, Do(env, s, run[0]), run[1..], k, p);
    }
  }
}
