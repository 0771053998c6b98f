/** The terminal receipts of the Bootstrap transaction, the states its faults lead to, and what may still
    happen to an archived transaction. */
module BootstrapReceipts {
  import opened Contents
  import opened BootstrapModel
  import opened BootstrapSafety
  import opened BootstrapRecovery
  import opened BootstrapRollback

  // -------------------------------------------------------------- terminal receipts

  predicate ReceiptPoint(s: State) {
    && (s.archive || s.proc.Archiving? ==> s.completion || s.rollback.Some?)
    && (s.proc.Removing? ==> s.archive)
  }

  lemma ReceiptLoops(env: Plan, s: State)
    requires ReceiptPoint(s) && (s.proc.Staging? || s.proc.Advancing? || s.proc.RollingBack?)
    ensures ReceiptPoint(Tick(env, s))
  {
  }

  lemma ReceiptReads(env: Plan, s: State, seen: Disk)
    requires ReceiptPoint(s) && Reads(s.proc)
    ensures ReceiptPoint(s.(proc := After(env, s.proc, s.staging, seen)))
  {
  }

  lemma ReceiptWrites(s: State)
    requires ReceiptPoint(s)
    ensures ReceiptPoint(TickReceipt(s))
  {
  }

  lemma ReceiptAction(env: Plan, s: State, a: Action)
    requires ReceiptPoint(s)
    ensures ReceiptPoint(Do(env, s, a))
  {
    if (a.Torn? || a.Step?) && Reads(s.proc) {
      ReceiptReads(env, s, if a.Torn? then a.seen else s.formal);
    } else if a.Step? && (s.proc.Staging? || s.proc.Advancing? || s.proc.RollingBack?) {
      ReceiptLoops(env, s);
    } else if a.Step? {
      ReceiptWrites(s);
    }
  }

  lemma {:induction false} RunKeepsReceipts(env: Plan, s: State, run: seq<Action>)
    requires ReceiptPoint(s)
    ensures ReceiptPoint(Exec(env, s, run))
    decreases |run|
  {
    if run != [] {
      ReceiptAction(env, s, run[0]);
      RunKeepsReceipts(env, Do(env, s, run[0]), run[1..]);
    }
  }

  /** On every run, third parties included, an archived transaction has a terminal receipt, so Status always
      finds one; without third parties a completion receipt means that everything is published. */
  lemma ArchivedHasReceipt(env: Plan, s: State, run: seq<Action>)
    requires Initial(s)
    ensures var e := Exec(env, s, run);
            && (e.archive ==> e.completion || e.rollback.Some?)
            && Report(env, e) != NoTerminalReceipt
            && (QuietRun(run) && e.completion ==> FullyPublished(env, e.formal))
  {
    RunKeepsReceipts(env, s, run);
    if QuietRun(run) {
      QuietRunKeepsInv(env, s, run);
    }
  }

  /** No Apply or Resume starts from the rollback receipt until the active intent is removed. */
  predicate Disciplined(env: Plan, s: State, run: seq<Action>)
    decreases |run|
  {
    run == [] ||
    (&& (s.rollback.Some? && s.intent ==> run[0] !in {Start(Apply), Start(Resume)})
     && Disciplined(env, Do(env, s, run[0]), run[1..]))
  }

  predicate ExclusivePoint(s: State) {
    && !(s.completion && s.rollback.Some?)
    && (s.rollback.Some? ==> s.intent || s.archive)
    && (s.rollback.Some? ==> BackwardPoint(s.proc))
    && (s.completion ==> ForwardPoint(s.proc))
    && (s.proc.Removing? ==> s.archive)
    && (s.proc.Idle? || s.proc.Preparing? || s.proc.Staging? || s.proc.SavingIntent? || s.intent)
  }

  lemma ExclusiveLoops(env: Plan, s: State)
    requires ExclusivePoint(s) && (s.proc.Staging? || s.proc.Advancing? || s.proc.RollingBack?)
    ensures ExclusivePoint(Tick(env, s))
  {
  }

  lemma ExclusiveReads(env: Plan, s: State, seen: Disk)
    requires ExclusivePoint(s) && Reads(s.proc)
    ensures ExclusivePoint(s.(proc := After(env, s.proc, s.staging, seen)))
  {
  }

  lemma ExclusiveReceipts(s: State)
    requires ExclusivePoint(s)
    ensures ExclusivePoint(TickReceipt(s))
  {
  }

  /** The two receipts exclude each other on every run, with any third-party writes, on which no Apply or
      Resume is taken in that window. */
  lemma {:induction false} ReceiptsExclude(env: Plan, s: State, run: seq<Action>)
    requires ExclusivePoint(s) && Disciplined(env, s, run)
    ensures var e := Exec(env, s, run); !(e.completion && e.rollback.Some?)
    decreases |run|
  {
    if run != [] {
      ExclusiveAction(env, s, run[0]);
      ReceiptsExclude(env, Do(env, s, run[0]), run[1..]);
    }
  }

  lemma ExclusiveAction(env: Plan, s: State, a: Action)
    requires ExclusivePoint(s) && (s.rollback.Some? && s.intent ==> a !in {Start(Apply), Start(Resume)})
    ensures ExclusivePoint(Do(env, s, a))
  {
    if (a.Torn? || a.Step?) && Reads(s.proc) {
      ExclusiveReads(env, s, if a.Torn? then a.seen else s.formal);
    } else if a.Step? && (s.proc.Staging? || s.proc.Advancing? || s.proc.RollingBack?) {
      ExclusiveLoops(env, s);
    } else if a.Step? {
      ExclusiveReceipts(s);
    }
  }

  /** The rollback receipt was written, and the process died before the active intent was removed. The archive
      may exist already, and a Resume may have published again, in part or in full. */
  ghost predicate InReceiptWindow(env: Plan, s: State, m: int) {
    Undoable(env, s, m) && s.rollback.Some?
  }

  /** In that window Resume publishes everything again, and Status then calls the active layout rolled back. */
  lemma ResumeRepublishesInWindow(env: Plan, s: State, m: int) returns (e: State)
    requires InReceiptWindow(env, s, m)
    ensures Performs(env, s, Resume, e) && Finished(env, s, e)
    ensures e.completion && e.rollback == s.rollback
    ensures Activated(env, e.formal) && Report(env, e) == RolledBack
  {
    e := ResumeConverges(env, s, m, Resume);
    PrefixStates(env, e.formal, |env.items|);
  }

  lemma {:induction false} NothingToName(env: Plan, next: nat)
    ensures Names(env, 0, next) == []
    decreases |OrderAt(env, 0)| - next
  {
    if next < |OrderAt(env, 0)| {
      NothingToName(env, next + 1);
    }
  }

  /** Rerunning Rollback there rebuilds the receipt from what it puts back itself: it archives if and only if no
      round is blocked and the first receipt names exactly that. Otherwise the transaction stays active, with
      everything put back when no round was blocked. With nothing published it changes no file, and archives if
      and only if the first receipt named nothing. */
  lemma RerunRollbackInWindow(env: Plan, s: State, m: int) returns (e: State)
    requires InReceiptWindow(env, s, m)
    ensures Performs(env, s, Rollback, e) && e.proc == Idle
    ensures RolledBackFrom(env, s, e) <==> Open(env, m, s.recovered, 0) && s.rollback == Some(Names(env, m, 0))
    ensures !RolledBackFrom(env, s, e) ==> e == s.(formal := e.formal, recovered := e.recovered)
    ensures Open(env, m, s.recovered, 0) ==> PrefixAt(env, e.formal, 0)
    ensures m == 0 ==> e == if s.rollback == Some([]) then s.(archive := true, intent := false) else s
  {
    var j;
    e, j := RollbackOutcome(env, s, m);
    if m == 0 {
      NothingToName(env, 0);
    }
  }

  // ------------------------------------------------------ these states are reached

  /** Some interleaving of Apply, Resume, Rollback and crashes leads from `s` to `e`. */
  ghost predicate Possible(env: Plan, s: State, e: State) {
    exists run :: QuietRun(run) && Exec(env, s, run) == e
  }

  lemma PossibleThrough(env: Plan, s: State, s': State, e: State)
    requires Possible(env, s, s') && Possible(env, s', e)
    ensures Possible(env, s, e)
  {
    var a :| QuietRun(a) && Exec(env, s, a) == s';
    var b :| QuietRun(b) && Exec(env, s', b) == e;
    ExecConcat(env, s, a, b);
    assert QuietRun(a + b);
  }

  lemma PossibleCommand(env: Plan, s: State, op: Op, e: State)
    requires Reaches(env, Begin(s, op), e)
    ensures Possible(env, s, e) && Possible(env, s, e.(proc := Idle))
  {
    PerformsFrom(env, s, op, e);
    var k: nat :| Exec(env, s, [Start(op)] + Steps(k)) == e;
    var run := [Start(op)] + Steps(k);
    assert QuietRun(run) && QuietRun([Crash]);
    assert Exec(env, e, [Crash]) == Exec(env, e.(proc := Idle), [Crash][1..]);
    assert Possible(env, e, e.(proc := Idle));
    PossibleThrough(env, s, e, e.(proc := Idle));
  }

  /** Everything is published and the process died before the completion receipt. */
  ghost predicate Unfinished(env: Plan, s: State) {
    Inv(env, s) && FullyPublished(env, s.formal) && s.proc == Idle && s.intent && !s.completion && s.rollback.None?
  }

  lemma PossibleKeepsInv(env: Plan, s: State, e: State)
    requires Inv(env, s) && Possible(env, s, e)
    ensures Inv(env, e)
  {
    var run :| QuietRun(run) && Exec(env, s, run) == e;
    QuietRunKeepsInv(env, s, run);
  }

  lemma UnfinishedIsReachable(env: Plan, s: State) returns (e: State)
    requires FreshDisk(env, s)
    ensures Possible(env, s, e) && Unfinished(env, e) && e.recovered == map[]
  {
    var v := FreshApplyPublishes(env, s);
    e := v.(proc := Idle);
    PossibleCommand(env, s, Apply, v);
    PossibleKeepsInv(env, s, e);
  }

  /** From every admitted disk, the split state. */
  lemma SplitIsReachable(env: Plan, s: State) returns (e: State)
    requires FreshDisk(env, s)
    ensures Possible(env, s, e) && SplitAt(env, e.formal) && e.proc == Idle && e.intent && !e.completion
  {
    var t := UnfinishedIsReachable(env, s);
    SplitIsReached(env, t);
    var run := [Start(Rollback), Step, Step, Crash];
    e := Exec(env, t, run);
    assert QuietRun(run) && Possible(env, t, e);
    PossibleThrough(env, s, t, e);
  }

  /** A Rollback of a fully published layout that has just written its receipt. */
  lemma ReceiptIsWritten(env: Plan, s: State) returns (t: State, e: State)
    requires FreshDisk(env, s)
    ensures Possible(env, s, t) && Reaches(env, Begin(t, Rollback), e) && PrefixAt(env, e.formal, 0)
    ensures e.proc == Archiving && e.intent && !e.completion && e.rollback == Some(Names(env, |env.items|, 0))
    ensures FillsOnlyOwn(env, |env.items|, map[], e.recovered)
  {
    t := UnfinishedIsReachable(env, s);
    var t0 := t.(proc := RollbackInspecting);
    var w := RollbackReachesReceipt(env, t0, |env.items|);
    e := w.(rollback := Some(w.proc.moved), proc := Archiving);
    ReachesNext(env, t0, w, e);
  }

  /** From every admitted disk, the window with a receipt that names all that was published, and with the
      recovered slots of that one Rollback filled. */
  lemma WindowIsReachable(env: Plan, s: State) returns (e: State)
    requires FreshDisk(env, s)
    ensures Possible(env, s, e) && InReceiptWindow(env, e, 0)
    ensures e.rollback == Some(Names(env, |env.items|, 0)) && e.rollback != Some([])
    ensures FillsOnlyOwn(env, |env.items|, map[], e.recovered)
  {
    var t, w' := ReceiptIsWritten(env, s);
    PossibleCommand(env, t, Rollback, w');
    e := w'.(proc := Idle);
    PossibleThrough(env, s, t, e);
    PossibleKeepsInv(env, s, e);
    RootIsNamedFirst(env);
  }

  lemma RootIsNamedFirst(env: Plan)
    ensures var names := Names(env, |env.items|, 0); names != [] && names[0] == Root
  {
    assert OrderAt(env, |env.items|)[0] == Root;
  }

  lemma MetaIsNamedAlone(env: Plan)
    ensures Names(env, 1, 0) == [Meta]
  {
    assert OrderAt(env, 1) == [Database, Code, Meta];
    assert Names(env, 1, 3) == [];
    assert Names(env, 1, 2) == [Meta];
    assert Names(env, 1, 1) == [Meta];
  }

  /** From every admitted disk: after that receipt a Resume publishes Meta and dies. The next Rollback has a free
      slot for Meta, puts it back, and still does not archive, since it would name something else. */
  lemma OtherReceiptIsReachable(env: Plan, s: State) returns (e: State)
    requires FreshDisk(env, s)
    ensures Possible(env, s, e) && InReceiptWindow(env, e, 1) && Open(env, 1, e.recovered, 0) && !Restores(env, e)
  {
    var w := WindowIsReachable(env, s);
    var s1 := w.(proc := Advancing(w.formal, 0));
    PrefixStates(env, w.formal, 0);
    AdvancingTick(env, s1, 0);
    var s2 := TickAdvancing(env, s1);
    ReachesItself(env, s2);
    ReachesFurther(env, s1, s2, s2);
    ReachesFurther(env, w.(proc := Inspecting(0)), s1, s2);
    PossibleCommand(env, w, Resume, s2);
    e := s2.(proc := Idle);
    PossibleThrough(env, s, w, e);
    PossibleKeepsInv(env, s, e);
    RootIsNamedFirst(env);
    MetaIsNamedAlone(env);
    MetaSlotFree(env, e.recovered);
    RollbackRestores(env, e, 1);
  }

  lemma MetaSlotFree(env: Plan, recovered: map<Slot, Bytes>)
    requires FillsOnlyOwn(env, |env.items|, map[], recovered)
    ensures Open(env, 1, recovered, 0)
  {
    assert OrderAt(env, |env.items|)[2] == Database && OrderAt(env, 1) == [Database, Code, Meta];
    assert Slot(2, Meta) !in recovered;
  }

  /** From every admitted disk, a fully published layout with the Baseline's recovered slot occupied, and Root's
      too when Root was created: a Rollback interrupted after the Baseline, then a Resume interrupted before its
      completion receipt. */
  lemma OccupiedSlotIsReachable(env: Plan, s: State) returns (e: State)
    requires FreshDisk(env, s)
    ensures Possible(env, s, e) && Unfinished(env, e) && Slot(1, Baseline) in e.recovered
    ensures env.items[RootIndex(env)].pre.None? ==> Slot(0, Root) in e.recovered
  {
    var t := UnfinishedIsReachable(env, s);
    var b := RootAndBaselineBack(env, t, |env.items|);
    PossibleBackward(env, t, b);
    PossibleThrough(env, s, t, b);
    PossibleKeepsInv(env, s, b);
    var v := InspectPublishes(env, b.(proc := Inspecting(0)), RootIndex(env));
    PossibleCommand(env, b, Resume, v);
    e := v.(proc := Idle);
    PossibleThrough(env, s, b, e);
    PossibleKeepsInv(env, s, e);
  }

  /** From there an uninterrupted Rollback ends in the split state when Root has a preimage, and changes nothing
      at all when Root was created. */
  lemma OccupiedSlotSplits(env: Plan, s: State) returns (a: State, e: State)
    requires FreshDisk(env, s)
    ensures Possible(env, s, a) && Unfinished(env, a) && Performs(env, a, Rollback, e) && e.proc == Idle
    ensures if env.items[RootIndex(env)].pre.Some? then SplitAt(env, e.formal) else e == a
  {
    a := OccupiedSlotIsReachable(env, s);
    e := RollbackSplitsIff(env, a);
  }

  lemma PossibleBackward(env: Plan, s: State, e: State)
    requires exists run :: BackwardRun(run) && Exec(env, s, run) == e
    ensures Possible(env, s, e)
  {
    var run :| BackwardRun(run) && Exec(env, s, run) == e;
    assert QuietRun(run);
  }

  // ------------------------------------------------------------ archived, and still active

  /** What Resume does to an archived transaction: it publishes it again exactly when its intent survived and
      the layout is neither published nor split. */
  lemma ArchivedResume(env: Plan, s: State) returns (e: State)
    requires Inv(env, s) && s.proc == Idle && s.archive
    ensures Performs(env, s, Resume, e) && e.proc == Idle
    ensures if s.intent && !SplitAt(env, s.formal) then Finished(env, s, e) else e == s
    ensures e.formal != s.formal <==> s.intent && !SplitAt(env, s.formal) && !FullyPublished(env, s.formal)
  {
    if !s.intent {
      e := s;
      ReachesItself(env, e);
      PerformsFrom(env, s, Resume, e);
    } else if SplitAt(env, s.formal) {
      e := s;
      SplitStates(env, s.formal);
      ReachesItself(env, e);
      ReachesFurther(env, s.(proc := Inspecting(0)), e, e);
      PerformsFrom(env, s, Resume, e);
    } else {
      var m := if FullyPublished(env, s.formal) then |env.items| else var m :| PrefixAt(env, s.formal, m); m;
      e := ResumeConverges(env, s, m, Resume);
    }
  }

  /** From every admitted disk: a Rollback archived the transaction and died before removing its intent, and
      Resume then publishes the archived transaction again. */
  lemma ArchivedPublishesAgain(env: Plan, s: State) returns (a: State, e: State)
    requires FreshDisk(env, s)
    ensures Possible(env, s, a) && a.archive && a.intent && a.rollback.Some? && !a.completion
    ensures PrefixAt(env, a.formal, 0) && Performs(env, a, Resume, e) && FullyPublished(env, e.formal)
  {
    a := ArchiveAlone(env, s);
    PossibleKeepsInv(env, s, a);
    e := ResumeRepublishesInWindow(env, a, 0);
  }

  lemma ArchiveAlone(env: Plan, s: State) returns (a: State)
    requires FreshDisk(env, s)
    ensures Possible(env, s, a) && a.archive && a.intent && a.rollback.Some? && !a.completion
    ensures PrefixAt(env, a.formal, 0) && a.proc == Idle
  {
    var t, w1 := ReceiptIsWritten(env, s);
    var w2 := w1.(archive := true, proc := Removing);
    ReachesNext(env, Begin(t, Rollback), w1, w2);
    PossibleCommand(env, t, Rollback, w2);
    a := w2.(proc := Idle);
    PossibleThrough(env, s, t, a);
  }

  /** The archived transaction is published for good. */
  ghost predicate Settled(env: Plan, s: State) {
    && Inv(env, s) && s.archive && FullyPublished(env, s.formal)
    && (s.completion || RootBlocked(env, s.recovered))
    && !s.proc.RollbackVerifying? && !s.proc.WritingReceipt?
    && (s.proc.RollingBack? ==> s.proc.next == 0)
  }

  lemma SettledAdvance(env: Plan, s: State)
    requires Settled(env, s) && s.proc.Advancing?
    ensures TickAdvancing(env, s).formal == s.formal && !TickAdvancing(env, s).proc.RollingBack?
  {
    var m :| s.proc.next <= m && PrefixAt(env, s.formal, m);
    PrefixUnique(env, s.formal, m, |env.items|);
    AdvancingTick(env, s, m);
  }

  lemma SettledRoll(env: Plan, s: State)
    requires Settled(env, s) && s.proc.RollingBack?
    ensures TickRollingBack(env, s) == s.(proc := Idle)
  {
    var m :| RollingFrom(env, s.formal, s.proc.seen, s.proc.next, m);
    assert OrderAt(env, m)[..0] == [];
    UnwoundToPrefix(env, s.formal, m, [], m);
    PrefixUnique(env, s.formal, m, |env.items|);
    WalkBlocked(env, s, m);
  }

  lemma SettledAction(env: Plan, s: State, a: Action)
    requires Settled(env, s) && Quiet(a)
    ensures Settled(env, Do(env, s, a)) && Do(env, s, a).formal == s.formal
  {
    QuietActionKeepsInv(env, s, a);
    if a.Step? {
      if s.proc.Advancing? {
        SettledAdvance(env, s);
      } else if s.proc.RollingBack? {
        SettledRoll(env, s);
      } else {
        OtherTicksKeepFormal(env, s);
      }
    }
  }

  lemma {:induction false} SettledStays(env: Plan, s: State, run: seq<Action>)
    requires Settled(env, s) && QuietRun(run)
    ensures Exec(env, s, run).formal == s.formal
    decreases |run|
  {
    if run != [] {
      SettledAction(env, s, run[0]);
      SettledStays(env, Do(env, s, run[0]), run[1..]);
    }
  }

  /** What a caller can read off the disk: the intent is still there, the layout is not split, and it is either
      not fully published or can still be rolled back. */
  predicate CanStillMove(env: Plan, s: State) {
    && s.intent && !SplitAt(env, s.formal)
    && (!FullyPublished(env, s.formal) || (!s.completion && !RootBlocked(env, s.recovered)))
  }

  /** Exactly when some interleaving of Apply, Resume, Rollback and crashes still writes a formal path of an
      archived transaction. */
  lemma ArchivedMovesIff(env: Plan, s: State)
    requires Inv(env, s) && s.proc == Idle && s.archive
    ensures (exists run :: QuietRun(run) && Exec(env, s, run).formal != s.formal) <==> CanStillMove(env, s)
  {
    if CanStillMove(env, s) {
      var run := ArchivedMoves(env, s);
    } else {
      forall run | QuietRun(run) ensures Exec(env, s, run).formal == s.formal {
        if !s.intent {
          ArchivedIsFinal(env, s, run);
        } else if SplitAt(env, s.formal) {
          NotFullySplit(env, s.formal);
          SplitIsStuck(env, s, run);
        } else {
          SettledStays(env, s, run);
        }
      }
    }
  }

  lemma NotFullySplit(env: Plan, d: Disk)
    requires Distinct(env) && SplitAt(env, d)
    ensures !FullyPublished(env, d)
  {
    SplitStates(env, d);
    if FullyPublished(env, d) {
      PrefixStates(env, d, |env.items|);
    }
  }

  lemma ArchivedMoves(env: Plan, s: State) returns (run: seq<Action>)
    requires Inv(env, s) && s.proc == Idle && s.archive && CanStillMove(env, s)
    ensures QuietRun(run) && Exec(env, s, run).formal != s.formal
  {
    if FullyPublished(env, s.formal) {
      SplitIsReached(env, s);
      run := [Start(Rollback), Step, Step, Crash];
      NotFullySplit(env, Exec(env, s, run).formal);
    } else {
      var e := ArchivedResume(env, s);
      var k: nat :| Exec(env, s, [Start(Resume)] + Steps(k)) == e;
      run := [Start(Resume)] + Steps(k);
    }
  }
}
