/** Rollback: exactly when it restores everything, and when it can be entered again. */
module BootstrapRollback {
  import opened Contents
  import opened BootstrapModel
  import opened BootstrapSafety
  import opened BootstrapRecovery

  // ------------------------------------------------------- a Rollback that completes

  /** The order Rollback walks from a published prefix of length `m`. */
  function OrderAt(env: Plan, m: int): seq<Path> {
    RollbackOrder(RootIndex(env) < m)
  }

  /** A path that is moved away, not restored, by a Rollback from that prefix. */
  predicate Moves(env: Plan, m: int, p: Path) {
    Find(env, p) < m && Find(env, p) < |env.items| && env.items[Find(env, p)].pre.None?
  }

  /** Round `i` of a Rollback from that prefix would move a file into an occupied recovered slot. */
  predicate Blocked(env: Plan, m: int, recovered: map<Slot, Bytes>, i: nat) {
    i < |OrderAt(env, m)| && Moves(env, m, OrderAt(env, m)[i]) && Slot(i, OrderAt(env, m)[i]) in recovered
  }

  /** No round from `next` on is blocked. */
  predicate Open(env: Plan, m: int, recovered: map<Slot, Bytes>, next: nat) {
    forall i :: next <= i < |OrderAt(env, m)| ==> !Blocked(env, m, recovered, i)
  }

  /** The paths that a Rollback from that prefix puts back from round `next` on, which its receipt names. */
  function Names(env: Plan, m: int, next: nat): seq<Path>
    decreases |OrderAt(env, m)| - next
  {
    if |OrderAt(env, m)| <= next then []
    else NameOf(env, m, OrderAt(env, m)[next]) + Names(env, m, next + 1)
  }

  function NameOf(env: Plan, m: int, p: Path): seq<Path> {
    if Find(env, p) < m then [p] else []
  }

  /** The order Rollback walks has no repetition. */
  lemma OrderDistinct(activated: bool, i: nat)
    requires i < |RollbackOrder(activated)|
    ensures RollbackOrder(activated)[i] !in RollbackOrder(activated)[..i]
  {
  }

  /** Exactly when one round of Rollback's loop refuses: the path would be moved, and an earlier
      Rollback, followed by a Resume, left its recovered slot occupied. */
  lemma UndoRefusesOccupiedSlot(env: Plan, d: Disk, recovered: map<Slot, Bytes>, seen: Disk, i: nat, p: Path, m: int, done: seq<Path>)
    requires Distinct(env) && PrefixAt(env, seen, m) && Unwound(env, d, m, done) && p !in done
    ensures Undo(env, d, recovered, seen, i, p).None? <==> Moves(env, m, p) && Slot(i, p) in recovered
  {
    PrefixStates(env, seen, m);
    if Find(env, p) < m {
      assert At(d, env.items[Find(env, p)].path) == File(env.items[Find(env, p)].post);
    }
  }

  /** Rollback is at round `s.proc.next`, having started from a published prefix of length `m`. */
  ghost predicate Walking(env: Plan, s: State, m: int) {
    Distinct(env) && s.proc.RollingBack? && RollingFrom(env, s.formal, s.proc.seen, s.proc.next, m)
  }

  /** Exactly the slot of the present round is filled, when its path is moved. */
  ghost predicate Fills(env: Plan, m: int, recovered: map<Slot, Bytes>, recovered': map<Slot, Bytes>, i: nat)
    requires i < |OrderAt(env, m)|
  {
    forall slot :: slot in recovered' <==>
      (slot in recovered || (slot == Slot(i, OrderAt(env, m)[i]) && Moves(env, m, OrderAt(env, m)[i])))
  }

  /** What a round records. */
  lemma UndoRecords(env: Plan, d: Disk, recovered: map<Slot, Bytes>, seen: Disk, i: nat, m: int, u: Undone)
    requires Distinct(env) && PrefixAt(env, seen, m) && i < |OrderAt(env, m)|
    requires Undo(env, d, recovered, seen, i, OrderAt(env, m)[i]) == Some(u)
    ensures u.moved <==> Find(env, OrderAt(env, m)[i]) < m
    ensures Fills(env, m, recovered, u.recovered, i)
    ensures m == 0 ==> u == Undone(d, recovered, false)
  {
    PrefixStates(env, seen, m);
  }

  /** Later rounds are blocked as before. */
  lemma FillsKeepsBlocked(env: Plan, m: int, recovered: map<Slot, Bytes>, recovered': map<Slot, Bytes>, i: nat)
    requires i < |OrderAt(env, m)| && Fills(env, m, recovered, recovered', i)
    ensures forall k :: i < k ==> (Blocked(env, m, recovered', k) <==> Blocked(env, m, recovered, k))
  {
  }

  lemma FillsKeepsOpen(env: Plan, m: int, recovered: map<Slot, Bytes>, recovered': map<Slot, Bytes>, i: nat)
    requires i < |OrderAt(env, m)| && Fills(env, m, recovered, recovered', i) && !Blocked(env, m, recovered, i)
    ensures Open(env, m, recovered', i + 1) <==> Open(env, m, recovered, i)
  {
    FillsKeepsBlocked(env, m, recovered, recovered', i);
  }

  /** Round `j` is the first blocked one from `next` on. */
  predicate FirstBlocked(env: Plan, m: int, recovered: map<Slot, Bytes>, next: nat, j: nat) {
    next <= j && Blocked(env, m, recovered, j) && forall i :: next <= i < j ==> !Blocked(env, m, recovered, i)
  }

  lemma FillsKeepsFirst(env: Plan, m: int, recovered: map<Slot, Bytes>, recovered': map<Slot, Bytes>, i: nat, j: nat)
    requires i < |OrderAt(env, m)| && Fills(env, m, recovered, recovered', i) && !Blocked(env, m, recovered, i)
    requires FirstBlocked(env, m, recovered', i + 1, j)
    ensures FirstBlocked(env, m, recovered, i, j)
  {
    FillsKeepsBlocked(env, m, recovered, recovered', i);
  }

  /** Every slot of `recovered'` was there before or is one that a Rollback from that prefix fills. */
  ghost predicate FillsOnlyOwn(env: Plan, m: int, recovered: map<Slot, Bytes>, recovered': map<Slot, Bytes>) {
    forall slot :: slot in recovered' ==>
      slot in recovered || (slot.index < |OrderAt(env, m)| && slot.path == OrderAt(env, m)[slot.index])
  }

  lemma FillsOwnThen(env: Plan, m: int, a: map<Slot, Bytes>, b: map<Slot, Bytes>, c: map<Slot, Bytes>, i: nat)
    requires i < |OrderAt(env, m)| && Fills(env, m, a, b, i) && FillsOnlyOwn(env, m, b, c)
    ensures FillsOnlyOwn(env, m, a, c)
  {
  }

  lemma OrderSeen(env: Plan, seen: Disk, m: int)
    requires Distinct(env) && PrefixAt(env, seen, m)
    ensures RollbackOrder(Activated(env, seen)) == OrderAt(env, m)
  {
    PrefixStates(env, seen, m);
  }

  /** One round that is not blocked, on the formal paths and the recovered directory. */
  lemma UndoRound(env: Plan, d: Disk, recovered: map<Slot, Bytes>, seen: Disk, i: nat, m: int) returns (u: Undone)
    requires Distinct(env) && RollingFrom(env, d, seen, i, m) && i < |OrderAt(env, m)| && !Blocked(env, m, recovered, i)
    ensures Undo(env, d, recovered, seen, i, OrderAt(env, m)[i]) == Some(u)
    ensures RollingFrom(env, u.formal, seen, i + 1, m)
  {
    var order := OrderAt(env, m);
    OrderDistinct(RootIndex(env) < m, i);
    UndoRefusesOccupiedSlot(env, d, recovered, seen, i, order[i], m, order[..i]);
    u := Undo(env, d, recovered, seen, i, order[i]).value;
    assert order[..i + 1] == order[..i] + [order[i]];
    UndoUnwinds(env, d, recovered, seen, i, order[i], m, order[..i]);
  }

  function Walked(s: State, p: Path, u: Undone): State
    requires s.proc.RollingBack?
  {
    var RollingBack(seen, i, moved) := s.proc;
    s.(formal := u.formal, recovered := u.recovered, proc := RollingBack(seen, i + 1, if u.moved then moved + [p] else moved))
  }

  lemma WalkTicks(env: Plan, s: State, m: int, u: Undone)
    requires Walking(env, s, m) && s.proc.next < |OrderAt(env, m)|
    requires Undo(env, s.formal, s.recovered, s.proc.seen, s.proc.next, OrderAt(env, m)[s.proc.next]) == Some(u)
    ensures Tick(env, s) == Walked(s, OrderAt(env, m)[s.proc.next], u)
  {
    OrderSeen(env, s.proc.seen, m);
    WalkedRound(env, s, OrderAt(env, m)[s.proc.next]);
  }

  /** A round that is not blocked walks on. */
  lemma WalkStep(env: Plan, s: State, m: int) returns (s': State)
    requires Walking(env, s, m) && s.proc.next < |OrderAt(env, m)| && !Blocked(env, m, s.recovered, s.proc.next)
    ensures Tick(env, s) == s' && Walking(env, s', m)
    ensures s' == s.(formal := s'.formal, recovered := s'.recovered, proc := RollingBack(s.proc.seen, s.proc.next + 1, s'.proc.moved))
  {
    var u := UndoRound(env, s.formal, s.recovered, s.proc.seen, s.proc.next, m);
    WalkTicks(env, s, m, u);
    s' := Walked(s, OrderAt(env, m)[s.proc.next], u);
  }

  /** What it records. */
  lemma WalkRecords(env: Plan, s: State, m: int, s': State)
    requires Walking(env, s, m) && s.proc.next < |OrderAt(env, m)| && !Blocked(env, m, s.recovered, s.proc.next)
    requires Tick(env, s) == s'
    ensures s'.proc.RollingBack? && s'.proc.moved == s.proc.moved + NameOf(env, m, OrderAt(env, m)[s.proc.next])
    ensures Fills(env, m, s.recovered, s'.recovered, s.proc.next)
    ensures m == 0 ==> s'.formal == s.formal && s'.recovered == s.recovered
  {
    var u := UndoRound(env, s.formal, s.recovered, s.proc.seen, s.proc.next, m);
    UndoRecords(env, s.formal, s.recovered, s.proc.seen, s.proc.next, m, u);
    WalkTicks(env, s, m, u);
  }

  /** A blocked round stops without a write. */
  lemma WalkBlocked(env: Plan, s: State, m: int)
    requires Walking(env, s, m) && Blocked(env, m, s.recovered, s.proc.next)
    ensures TickRollingBack(env, s) == s.(proc := Idle)
  {
    var order, i := OrderAt(env, m), s.proc.next;
    OrderDistinct(RootIndex(env) < m, i);
    UndoRefusesOccupiedSlot(env, s.formal, s.recovered, s.proc.seen, i, order[i], m, order[..i]);
    OrderSeen(env, s.proc.seen, m);
    WalkedRound(env, s, order[i]);
  }

  /** Every item is at its preimage and the receipt is about to be written. */
  ghost predicate AtReceipt(env: Plan, s: State, e: State) {
    && PrefixAt(env, e.formal, 0) && e.proc.WritingReceipt?
    && e == s.(formal := e.formal, recovered := e.recovered, proc := e.proc)
  }

  lemma RollEnds(env: Plan, s: State, m: int)
    requires Walking(env, s, m) && s.proc.next == |OrderAt(env, m)|
    ensures PrefixAt(env, s.formal, 0)
    ensures Reaches(env, s, s.(proc := WritingReceipt(s.proc.moved)))
  {
    RollingEnds(env, s, m);
    PrefixStates(env, s.formal, 0);
    var s1 := s.(proc := RollbackVerifying(s.proc.moved));
    var e := s.(proc := WritingReceipt(s.proc.moved));
    ReachesItself(env, e);
    ReachesFurther(env, s1, e, e);
    ReachesFurther(env, s, s1, e);
  }

  /** `e` is what a Rollback at `s` comes to at its receipt: everything is back, what it put back is named, and
      only its own slots were filled. */
  ghost predicate WalkedToReceipt(env: Plan, s: State, m: int, e: State)
    requires s.proc.RollingBack?
  {
    && AtReceipt(env, s, e)
    && e.proc.moved == s.proc.moved + Names(env, m, s.proc.next)
    && FillsOnlyOwn(env, m, s.recovered, e.recovered)
    && (m == 0 ==> e.formal == s.formal && e.recovered == s.recovered)
  }

  lemma WalkedOneMore(env: Plan, s: State, s1: State, m: int, e: State)
    requires s.proc.RollingBack? && s.proc.next < |OrderAt(env, m)| && s1.proc.RollingBack?
    requires s1 == s.(formal := s1.formal, recovered := s1.recovered, proc := RollingBack(s.proc.seen, s.proc.next + 1, s1.proc.moved))
    requires s1.proc.moved == s.proc.moved + NameOf(env, m, OrderAt(env, m)[s.proc.next])
    requires Fills(env, m, s.recovered, s1.recovered, s.proc.next)
    requires m == 0 ==> s1.formal == s.formal && s1.recovered == s.recovered
    requires WalkedToReceipt(env, s1, m, e)
    ensures WalkedToReceipt(env, s, m, e)
  {
    FillsOwnThen(env, m, s.recovered, s1.recovered, e.recovered, s.proc.next);
    var a, b, c := s.proc.moved, NameOf(env, m, OrderAt(env, m)[s.proc.next]), Names(env, m, s.proc.next + 1);
    assert a + b + c == a + (b + c);
  }

  /** Rollback's loop from any point walks to the receipt when no later round is blocked. */
  lemma {:induction false} WalkCompletes(env: Plan, s: State, m: int) returns (e: State)
    requires Walking(env, s, m) && Open(env, m, s.recovered, s.proc.next)
    ensures Reaches(env, s, e) && WalkedToReceipt(env, s, m, e)
    decreases |RollbackOrder(true)| - s.proc.next
  {
    if s.proc.next == |OrderAt(env, m)| {
      RollEnds(env, s, m);
      e := s.(proc := WritingReceipt(s.proc.moved));
    } else {
      var s1 := WalkStep(env, s, m);
      WalkRecords(env, s, m, s1);
      FillsKeepsOpen(env, m, s.recovered, s1.recovered, s.proc.next);
      e := WalkCompletes(env, s1, m);
      WalkedOneMore(env, s, s1, m, e);
      ReachesFurther(env, s, s1, e);
    }
  }

  /** Otherwise it stops at the first round that is blocked, with the transaction as active as it was. */
  lemma {:induction false} WalkStops(env: Plan, s: State, m: int) returns (e: State, j: nat)
    requires Walking(env, s, m) && !Open(env, m, s.recovered, s.proc.next)
    ensures Reaches(env, s, e) && e == s.(formal := e.formal, recovered := e.recovered, proc := Idle)
    ensures FirstBlocked(env, m, s.recovered, s.proc.next, j) && RollingFrom(env, e.formal, s.proc.seen, j, m)
    ensures j == s.proc.next ==> e.formal == s.formal && e.recovered == s.recovered
    decreases |RollbackOrder(true)| - s.proc.next
  {
    var i := s.proc.next;
    if Blocked(env, m, s.recovered, i) {
      WalkBlocked(env, s, m);
      e, j := s.(proc := Idle), i;
      ReachesItself(env, e);
      ReachesFurther(env, s, e, e);
    } else {
      var s1 := WalkStep(env, s, m);
      WalkRecords(env, s, m, s1);
      FillsKeepsOpen(env, m, s.recovered, s1.recovered, i);
      e, j := WalkStops(env, s1, m);
      FillsKeepsFirst(env, m, s.recovered, s1.recovered, i, j);
      ReachesFurther(env, s, s1, e);
    }
  }

  lemma RollbackStarts(env: Plan, s: State, m: int)
    requires Recoverable(env, s, m) && s.proc == RollbackInspecting
    ensures Tick(env, s) == s.(proc := RollingBack(s.formal, 0, []))
    ensures RollingFrom(env, s.formal, s.formal, 0, m)
  {
    PrefixStates(env, s.formal, m);
    assert RollbackOrder(RootIndex(env) < m)[..0] == [];
  }

  /** Rollback up to the receipt, from any published prefix with no blocked round. */
  lemma RollbackReachesReceipt(env: Plan, s: State, m: int) returns (e: State)
    requires Recoverable(env, s, m) && s.proc == RollbackInspecting && Open(env, m, s.recovered, 0)
    ensures Reaches(env, s, e) && AtReceipt(env, s, e)
    ensures e.proc.moved == Names(env, m, 0) && FillsOnlyOwn(env, m, s.recovered, e.recovered)
    ensures m == 0 ==> e.formal == s.formal && e.recovered == s.recovered
  {
    RollbackStarts(env, s, m);
    var s1 := s.(proc := RollingBack(s.formal, 0, []));
    e := WalkCompletes(env, s1, m);
    ReachesFurther(env, s, s1, e);
  }

  /** `e` is a rolled back transaction: every item is at its preimage, and a receipt is archived. */
  ghost predicate RolledBackFrom(env: Plan, s: State, e: State) {
    && PrefixAt(env, e.formal, 0) && e.rollback.Some?
    && e == s.(formal := e.formal, recovered := e.recovered, rollback := e.rollback,
               intent := false, archive := true, proc := Idle)
  }

  /** An uninterrupted Rollback restores every target and archives its receipt. */
  ghost predicate Restores(env: Plan, s: State) {
    exists e :: Performs(env, s, Rollback, e) && RolledBackFrom(env, s, e)
  }

  lemma {:induction false} IdleStays(env: Plan, s: State, k: nat)
    requires s.proc == Idle
    ensures StepN(env, s, k) == s
    decreases k
  {
    if k != 0 {
      IdleStays(env, s, k - 1);
    }
  }

  /** A command has one outcome. */
  lemma OneOutcome(env: Plan, s: State, op: Op, e: State, e': State)
    requires Reaches(env, Begin(s, op), e) && e.proc == Idle
    requires Performs(env, s, op, e') && e'.proc == Idle
    ensures e == e'
  {
    var s0 := Begin(s, op);
    var j: nat :| StepN(env, s0, j) == e;
    var k: nat :| Exec(env, s, [Start(op)] + Steps(k)) == e';
    assert ([Start(op)] + Steps(k))[1..] == Steps(k);
    StepNIsExec(env, s0, k);
    if j <= k {
      StepNAdd(env, s0, j, k - j);
      IdleStays(env, e, k - j);
    } else {
      StepNAdd(env, s0, k, j - k);
      IdleStays(env, e', j - k);
    }
  }

  /** No rollback receipt is in the way: there is none, or it names what this Rollback will name. */
  predicate ReceiptFits(env: Plan, s: State, m: int) {
    s.rollback.None? || s.rollback.value == Names(env, m, 0)
  }

  /** An active transaction that can be rolled back, with a published prefix of length `m`. */
  ghost predicate Undoable(env: Plan, s: State, m: int) {
    Inv(env, s) && s.proc == Idle && s.intent && !s.completion && PrefixAt(env, s.formal, m)
  }

  /** What an uninterrupted Rollback ends with. Blocked, it stops at its first blocked round. Not blocked, it
      puts everything back, and then archives when the receipt fits and stays active when it does not. */
  lemma RollbackOutcome(env: Plan, s: State, m: int) returns (e: State, j: nat)
    requires Undoable(env, s, m)
    ensures Reaches(env, Begin(s, Rollback), e) && Performs(env, s, Rollback, e) && e.proc == Idle
    ensures !(Open(env, m, s.recovered, 0) && ReceiptFits(env, s, m)) ==> e == s.(formal := e.formal, recovered := e.recovered)
    ensures !Open(env, m, s.recovered, 0) ==>
              && FirstBlocked(env, m, s.recovered, 0, j) && RollingFrom(env, e.formal, s.formal, j, m)
              && (j == 0 ==> e == s)
    ensures Open(env, m, s.recovered, 0) ==> PrefixAt(env, e.formal, 0)
    ensures Open(env, m, s.recovered, 0) && ReceiptFits(env, s, m) ==>
              RolledBackFrom(env, s, e) && e.rollback == Some(Names(env, m, 0))
    ensures m == 0 ==> e.formal == s.formal && e.recovered == s.recovered
  {
    var s0 := s.(proc := RollbackInspecting);
    if Open(env, m, s.recovered, 0) {
      var w := RollbackReachesReceipt(env, s0, m);
      e := ReceiptEnds(env, s, m, w);
      j := 0;
    } else {
      RollbackStarts(env, s0, m);
      var s1 := s.(proc := RollingBack(s.formal, 0, []));
      e, j := WalkStops(env, s1, m);
      ReachesFurther(env, s0, s1, e);
    }
    PerformsFrom(env, s, Rollback, e);
  }

  /** From the receipt on. */
  lemma ReceiptEnds(env: Plan, s: State, m: int, w: State) returns (e: State)
    requires s.proc == Idle && s.intent && !s.completion
    requires Reaches(env, Begin(s, Rollback), w) && AtReceipt(env, s.(proc := RollbackInspecting), w)
    requires w.proc.moved == Names(env, m, 0)
    ensures Reaches(env, Begin(s, Rollback), e) && e.proc == Idle && e.formal == w.formal && e.recovered == w.recovered
    ensures if ReceiptFits(env, s, m) then RolledBackFrom(env, s, e) && e.rollback == Some(Names(env, m, 0))
            else e == s.(formal := e.formal, recovered := e.recovered)
  {
    if ReceiptFits(env, s, m) {
      var w' := w.(rollback := Some(w.proc.moved), proc := Archiving);
      e := w'.(archive := true, intent := false, proc := Idle);
      ArchivingFinishes(env, w');
      ReachesFurther(env, w, w', e);
    } else {
      e := w.(proc := Idle);
      ReachesItself(env, e);
      ReachesFurther(env, w, e, e);
    }
    ReachesThrough(env, Begin(s, Rollback), w, e);
  }

  /** Exactly when an uninterrupted Rollback restores everything and archives: no round of it is blocked, and
      no other rollback receipt is in the way. */
  lemma RollbackRestores(env: Plan, s: State, m: int)
    requires Undoable(env, s, m)
    ensures Restores(env, s) <==> Open(env, m, s.recovered, 0) && ReceiptFits(env, s, m)
  {
    var e, j := RollbackOutcome(env, s, m);
    if !(Open(env, m, s.recovered, 0) && ReceiptFits(env, s, m)) {
      StoppedDoesNotRestore(env, s, e);
    }
  }

  lemma StoppedDoesNotRestore(env: Plan, s: State, w: State)
    requires Reaches(env, Begin(s, Rollback), w) && w.proc == Idle && w.intent
    ensures !Restores(env, s)
  {
    forall e | Performs(env, s, Rollback, e) && RolledBackFrom(env, s, e) ensures false {
      OneOutcome(env, s, Rollback, w, e);
    }
  }

  // ----------------------------------------------------- the split state, exactly

  /** Among the states no third party touched, the split one is the only one that is not orderly. */
  lemma OnlySplitIsDisorderly(env: Plan, s: State)
    requires Inv(env, s) && (s.intent || s.archive)
    ensures !Orderly(env, s.formal) <==> SplitAt(env, s.formal)
  {
    if SplitAt(env, s.formal) {
      SplitStates(env, s.formal);
    } else {
      var m :| PrefixAt(env, s.formal, m);
      PrefixStates(env, s.formal, m);
    }
  }

  /** Resume is accepted from every interrupted state except exactly the split one, and so is Rollback as long
      as there is no completion receipt; Status reports exactly the split state as a conflict. */
  lemma AcceptedUnlessSplit(env: Plan, s: State)
    requires Inv(env, s) && s.proc == Idle && s.intent
    ensures Tick(env, Begin(s, Resume)).proc != Idle <==> !SplitAt(env, s.formal)
    ensures Tick(env, Begin(s, Rollback)).proc != Idle <==> !s.completion && !SplitAt(env, s.formal)
    ensures Report(env, s) == Conflict <==> SplitAt(env, s.formal)
  {
    OnlySplitIsDisorderly(env, s);
    assert Begin(s, Resume) == s.(proc := Inspecting(0));
    assert Begin(s, Rollback) == if s.completion then s else s.(proc := RollbackInspecting);
  }

  /** The control points that a split state can be at without a process that will leave it. */
  predicate Halted(proc: Process) {
    proc == Idle || proc == Inspecting(0) || proc == RollbackInspecting
  }

  /** Nothing moves from a split state: on every later run of Apply, Resume, Rollback and crashes all
      files stay as they are. */
  lemma {:induction false} SplitIsStuck(env: Plan, s: State, run: seq<Action>)
    requires Distinct(env) && SplitAt(env, s.formal) && s.intent && !s.completion && Halted(s.proc) && QuietRun(run)
    ensures Exec(env, s, run) == s.(proc := Exec(env, s, run).proc)
    decreases |run|
  {
    if run != [] {
      SplitStates(env, s.formal);
      var s' := Do(env, s, run[0]);
      assert s' == s.(proc := s'.proc) && Halted(s'.proc);
      SplitIsStuck(env, s', run[1..]);
    }
  }

  /** The split state is reached: a Rollback after the Baseline was published, interrupted once Root
      is back. */
  lemma SplitIsReached(env: Plan, s: State)
    requires Inv(env, s) && s.proc == Idle && s.intent && !s.completion
    requires FullyPublished(env, s.formal)
    requires env.items[RootIndex(env)].pre.Some? || Slot(0, Root) !in s.recovered
    ensures var e := Exec(env, s, [Start(Rollback), Step, Step, Crash]);
            SplitAt(env, e.formal) && e.proc == Idle && e.intent && !e.completion
  {
    var s0 := s.(proc := RollbackInspecting);
    RollbackStarts(env, s0, |env.items|);
    var s1 := s.(proc := RollingBack(s.formal, 0, []));
    var s2 := RootGoesFirst(env, s1);
    FourActions(env, s, Start(Rollback), s0, Step, s1, Step, s2, Crash, s2.(proc := Idle));
  }

  lemma RootGoesFirst(env: Plan, s: State) returns (s': State)
    requires Walking(env, s, |env.items|) && s.proc.next == 0
    requires env.items[RootIndex(env)].pre.Some? || Slot(0, Root) !in s.recovered
    ensures Tick(env, s) == s' && SplitAt(env, s'.formal)
    ensures s' == s.(formal := s'.formal, recovered := s'.recovered, proc := s'.proc)
  {
    s' := WalkStep(env, s, |env.items|);
    UnwindingKeepsShape(env, s'.formal, s.proc.seen, 1, |env.items|);
  }

  lemma FourActions(env: Plan, s: State, a: Action, s1: State, b: Action, s2: State, c: Action, s3: State, d: Action, s4: State)
    requires Do(env, s, a) == s1 && Do(env, s1, b) == s2 && Do(env, s2, c) == s3 && Do(env, s3, d) == s4
    ensures Exec(env, s, [a, b, c, d]) == s4
  {
    assert [a, b, c, d][1..] == [b, c, d] && [b, c, d][1..] == [c, d] && [c, d][1..] == [d] && [d][1..] == [];
    assert Exec(env, s4, []) == s4;
    assert Exec(env, s3, [d]) == s4;
    assert Exec(env, s2, [c, d]) == s4;
    assert Exec(env, s1, [b, c, d]) == s4;
  }

  /** Root cannot be rolled back: it would be moved, and its recovered slot is occupied. */
  predicate RootBlocked(env: Plan, recovered: map<Slot, Bytes>) {
    env.items[RootIndex(env)].pre.None? && Slot(0, Root) in recovered
  }

  lemma NotSplit(env: Plan, d: Disk, m: int)
    requires Distinct(env) && PrefixAt(env, d, m)
    ensures !SplitAt(env, d)
  {
    PrefixStates(env, d, m);
    if SplitAt(env, d) {
      SplitStates(env, d);
    }
  }

  /** The first two rounds of a Rollback of a fully published layout. */
  lemma FullLayoutBlocked(env: Plan, recovered: map<Slot, Bytes>)
    ensures Blocked(env, |env.items|, recovered, 0) <==> RootBlocked(env, recovered)
    ensures Blocked(env, |env.items|, recovered, 1) <==> Slot(1, Baseline) in recovered
  {
    assert OrderAt(env, |env.items|)[0] == Root && OrderAt(env, |env.items|)[1] == Baseline;
  }

  /** Exactly when a Rollback of a fully published layout ends in the split state without any crash: Root goes
      back, and the Baseline's recovered slot is occupied. With Root blocked it changes nothing at all. */
  lemma RollbackSplitsIff(env: Plan, s: State) returns (e: State)
    requires Undoable(env, s, |env.items|)
    ensures Performs(env, s, Rollback, e) && e.proc == Idle
    ensures SplitAt(env, e.formal) <==> !RootBlocked(env, s.recovered) && Slot(1, Baseline) in s.recovered
    ensures RootBlocked(env, s.recovered) ==> e == s
  {
    var n, j := |env.items|, 0;
    e, j := RollbackOutcome(env, s, n);
    FullLayoutBlocked(env, s.recovered);
    if Open(env, n, s.recovered, 0) {
      NotSplit(env, e.formal, 0);
      assert !Blocked(env, n, s.recovered, 1);
    } else {
      UnwindingKeepsShape(env, e.formal, s.formal, j, n);
      if j != 1 {
        var k :| k <= n && PrefixAt(env, e.formal, k);
        NotSplit(env, e.formal, k);
      }
    }
  }

  // -------------------------------------------------------- entering Rollback again

  predicate BackwardRun(run: seq<Action>) {
    forall i :: 0 <= i < |run| ==> run[i] in {Start(Rollback), Step, Crash}
  }

  predicate BackwardPoint(proc: Process) {
    || proc.Idle? || proc.RollbackInspecting? || proc.RollingBack? || proc.RollbackVerifying?
    || proc.WritingReceipt? || proc.Archiving? || proc.Removing?
  }

  /** The slot that a Rollback which finds no Root published would use for each published Volume is free. */
  predicate VolumesOpen(env: Plan, d: Disk, recovered: map<Slot, Bytes>) {
    forall i :: 0 <= i < 3 ==>
      var p := RollbackOrder(false)[i];
      Find(env, p) < |env.items| && At(d, p) == File(env.items[Find(env, p)].post) ==> Slot(i, p) !in recovered
  }

  lemma VolumesOpenAt(env: Plan, d: Disk, recovered: map<Slot, Bytes>, m: int)
    requires PrefixAt(env, d, m)
    ensures VolumesOpen(env, d, recovered) <==>
            Open(env, if RootIndex(env) < m then RootIndex(env) else m, recovered, 0)
  {
    var k := if RootIndex(env) < m then RootIndex(env) else m;
    forall i | 0 <= i < 3
      ensures var p := RollbackOrder(false)[i];
              (Find(env, p) < |env.items| && At(d, p) == File(env.items[Find(env, p)].post) && Slot(i, p) in recovered)
              <==> Blocked(env, k, recovered, i)
    {
      var f := Find(env, RollbackOrder(false)[i]);
      if f < |env.items| {
        assert At(d, env.items[f].path) == if f < m then File(env.items[f].post) else PreNode(env.items[f]);
      }
    }
  }

  /** No round is blocked of the Rollback that would start here, nor, once Root is back, of the next one. */
  ghost predicate Reopenable(env: Plan, d: Disk, recovered: map<Slot, Bytes>) {
    && VolumesOpen(env, d, recovered)
    && forall m :: PrefixAt(env, d, m) && RootIndex(env) < m ==> Open(env, m, recovered, 0)
  }

  /** What a transaction keeps while only Rollback, and crashes, act on it. */
  ghost predicate BackwardInv(env: Plan, s: State) {
    && Inv(env, s) && BackwardPoint(s.proc) && !s.completion
    && Reopenable(env, s.formal, s.recovered)
    && (s.rollback.None? ==> s.intent && !s.proc.Archiving? && !s.proc.Removing?)
  }

  lemma UndoKeepsVolumesOpen(env: Plan, d: Disk, recovered: map<Slot, Bytes>, seen: Disk, i: nat, p: Path)
    requires Distinct(env) && VolumesOpen(env, d, recovered)
    ensures var u := Undo(env, d, recovered, seen, i, p);
            u.Some? ==> VolumesOpen(env, u.value.formal, u.value.recovered)
  {
    var u := Undo(env, d, recovered, seen, i, p);
    assert u.Some? ==> forall slot :: slot in u.value.recovered ==> slot in recovered || slot == Slot(i, p);
  }

  /** After the first round no Root is published. */
  lemma WalkedRootIsBack(env: Plan, d: Disk, m: int, next: nat, k: int)
    requires Distinct(env) && 0 < next <= |OrderAt(env, m)| && Unwound(env, d, m, OrderAt(env, m)[..next])
    requires PrefixAt(env, d, k)
    ensures k <= RootIndex(env)
  {
    var r := RootIndex(env);
    if r < m {
      assert OrderAt(env, m)[0] == Root && OrderAt(env, m)[..next][0] == Root;
    }
    assert At(d, env.items[r].path) == PreNode(env.items[r]);
  }

  lemma RollingKeepsReopenable(env: Plan, s: State)
    requires BackwardInv(env, s) && s.proc.RollingBack?
    ensures Reopenable(env, TickRollingBack(env, s).formal, TickRollingBack(env, s).recovered)
  {
    var m :| RollingFrom(env, s.formal, s.proc.seen, s.proc.next, m);
    if s.proc.next == |OrderAt(env, m)| {
      RollingEnds(env, s, m);
    } else if Blocked(env, m, s.recovered, s.proc.next) {
      WalkBlocked(env, s, m);
    } else {
      var s' := WalkStep(env, s, m);
      OrderSeen(env, s.proc.seen, m);
      WalkedRound(env, s, OrderAt(env, m)[s.proc.next]);
      UndoKeepsVolumesOpen(env, s.formal, s.recovered, s.proc.seen, s.proc.next, OrderAt(env, m)[s.proc.next]);
      forall k | PrefixAt(env, s'.formal, k) ensures k <= RootIndex(env) {
        WalkedRootIsBack(env, s'.formal, m, s.proc.next + 1, k);
      }
    }
  }

  lemma BackwardTick(env: Plan, s: State)
    requires BackwardInv(env, s)
    ensures var s' := Tick(env, s);
            && BackwardPoint(s'.proc) && !s'.completion && Reopenable(env, s'.formal, s'.recovered)
            && (s'.rollback.None? ==> s'.intent && !s'.proc.Archiving? && !s'.proc.Removing?)
  {
    if s.proc.RollingBack? {
      RollingKeepsReopenable(env, s);
    } else {
      OtherTicksKeepFormal(env, s);
    }
  }

  lemma {:induction false} BackwardRunKeepsInv(env: Plan, s: State, run: seq<Action>)
    requires BackwardInv(env, s) && BackwardRun(run)
    ensures BackwardInv(env, Exec(env, s, run))
    decreases |run|
  {
    if run != [] {
      var s' := Do(env, s, run[0]);
      QuietActionKeepsInv(env, s, run[0]);
      if run[0] == Step {
        BackwardTick(env, s);
      }
      BackwardRunKeepsInv(env, s', run[1..]);
    }
  }

  /** A Rollback was interrupted before its receipt, and not in the split state. */
  ghost predicate Interrupted(env: Plan, s: State) {
    s.proc == Idle && s.rollback.None? && !SplitAt(env, s.formal)
  }

  /** Wherever Rollbacks are interrupted before their receipt, with no Resume in between, the next one
      restores everything. */
  ghost predicate AlwaysReenters(env: Plan, s: State) {
    forall run :: BackwardRun(run) && Interrupted(env, Exec(env, s, run)) ==> Restores(env, Exec(env, s, run))
  }

  lemma ReopenableRestores(env: Plan, s: State)
    requires BackwardInv(env, s) && Interrupted(env, s)
    ensures Restores(env, s)
  {
    var m :| PrefixAt(env, s.formal, m);
    VolumesOpenAt(env, s.formal, s.recovered, m);
    RollbackRestores(env, s, m);
  }

  /** Exactly when that is so. */
  lemma RollbackReenters(env: Plan, s: State, m: int)
    requires Inv(env, s) && s.proc == Idle && s.intent && !s.completion && s.rollback.None?
    requires PrefixAt(env, s.formal, m)
    ensures AlwaysReenters(env, s) <==> Reopenable(env, s.formal, s.recovered)
  {
    if Reopenable(env, s.formal, s.recovered) {
      forall run | BackwardRun(run) && Interrupted(env, Exec(env, s, run))
        ensures Restores(env, Exec(env, s, run))
      {
        BackwardRunKeepsInv(env, s, run);
        ReopenableRestores(env, Exec(env, s, run));
      }
    } else {
      BlockedOnReentry(env, s, m);
    }
  }

  lemma BlockedOnReentry(env: Plan, s: State, m: int)
    requires Inv(env, s) && s.proc == Idle && s.intent && !s.completion && s.rollback.None?
    requires PrefixAt(env, s.formal, m) && !Reopenable(env, s.formal, s.recovered)
    ensures !AlwaysReenters(env, s)
  {
    forall k | PrefixAt(env, s.formal, k) ensures k == m {
      PrefixUnique(env, s.formal, k, m);
    }
    VolumesOpenAt(env, s.formal, s.recovered, m);
    RollbackRestores(env, s, m);
    NotSplit(env, s.formal, m);
    if !Open(env, m, s.recovered, 0) {
      assert BackwardRun([]) && Exec(env, s, []) == s;
    } else {
      var t := RootAndBaselineBack(env, s, m);
      VolumesOpenAt(env, t.formal, t.recovered, RootIndex(env));
      RollbackRestores(env, t, RootIndex(env));
      NotSplit(env, t.formal, RootIndex(env));
    }
  }

  /** Rollback of an activated layout, interrupted with only the Volumes left published. */
  lemma RootAndBaselineBack(env: Plan, s: State, m: int) returns (t: State)
    requires Inv(env, s) && s.proc == Idle && s.intent && !s.completion && s.rollback.None?
    requires PrefixAt(env, s.formal, m) && RootIndex(env) < m && Open(env, m, s.recovered, 0)
    ensures exists run :: BackwardRun(run) && Exec(env, s, run) == t
    ensures Inv(env, t) && PrefixAt(env, t.formal, RootIndex(env))
    ensures t == s.(formal := t.formal, recovered := t.recovered)
    ensures forall slot :: slot in s.recovered ==> slot in t.recovered
    ensures m == |env.items| ==> Slot(1, Baseline) in t.recovered
    ensures env.items[RootIndex(env)].pre.None? ==> Slot(0, Root) in t.recovered
  {
    var s0 := s.(proc := RollbackInspecting);
    RollbackStarts(env, s0, m);
    var s1 := s.(proc := RollingBack(s.formal, 0, []));
    var s3 := TwoRounds(env, s1, m);
    t := s3.(proc := Idle);
    VolumesLeft(env, s3.formal, m);
    ReachesFurther(env, s0, s1, s3);
    RollbackInterrupted(env, s, s3);
  }

  lemma TwoRounds(env: Plan, s: State, m: int) returns (e: State)
    requires Walking(env, s, m) && RootIndex(env) < m && s.proc.next == 0 && Open(env, m, s.recovered, 0)
    ensures Reaches(env, s, e) && Unwound(env, e.formal, m, OrderAt(env, m)[..2])
    ensures e == s.(formal := e.formal, recovered := e.recovered, proc := e.proc)
    ensures forall slot :: slot in s.recovered ==> slot in e.recovered
    ensures m == |env.items| ==> Slot(1, Baseline) in e.recovered
    ensures env.items[RootIndex(env)].pre.None? ==> Slot(0, Root) in e.recovered
  {
    var s1 := WalkStep(env, s, m);
    WalkRecords(env, s, m, s1);
    FillsKeepsOpen(env, m, s.recovered, s1.recovered, 0);
    e := WalkStep(env, s1, m);
    WalkRecords(env, s1, m, e);
    TwoSlots(env, m, s.recovered, s1.recovered, e.recovered);
    ReachesItself(env, e);
    ReachesFurther(env, s1, e, e);
    ReachesFurther(env, s, s1, e);
  }

  lemma TwoSlots(env: Plan, m: int, a: map<Slot, Bytes>, b: map<Slot, Bytes>, c: map<Slot, Bytes>)
    requires RootIndex(env) < m && Fills(env, m, a, b, 0) && Fills(env, m, b, c, 1)
    ensures forall slot :: slot in a ==> slot in c
    ensures m == |env.items| ==> Slot(1, Baseline) in c
    ensures env.items[RootIndex(env)].pre.None? ==> Slot(0, Root) in c
  {
    assert OrderAt(env, m)[0] == Root && OrderAt(env, m)[1] == Baseline;
    assert env.items[RootIndex(env)].pre.None? ==> Slot(0, Root) in b;
  }

  lemma RollbackInterrupted(env: Plan, s: State, at: State)
    requires Inv(env, s) && Reaches(env, Begin(s, Rollback), at)
    ensures exists run :: BackwardRun(run) && Exec(env, s, run) == at.(proc := Idle)
    ensures Inv(env, at.(proc := Idle))
  {
    PerformsFrom(env, s, Rollback, at);
    var k: nat :| Exec(env, s, [Start(Rollback)] + Steps(k)) == at;
    var run := [Start(Rollback)] + Steps(k) + [Crash];
    ExecConcat(env, s, [Start(Rollback)] + Steps(k), [Crash]);
    assert Exec(env, at, [Crash]) == Exec(env, at.(proc := Idle), [Crash][1..]);
    assert BackwardRun(run) && QuietRun(run) && Exec(env, s, run) == at.(proc := Idle);
    QuietRunKeepsInv(env, s, run);
  }

  lemma VolumesLeft(env: Plan, d: Disk, m: int)
    requires RootIndex(env) < m <= |env.items| && Unwound(env, d, m, OrderAt(env, m)[..2])
    ensures PrefixAt(env, d, RootIndex(env))
  {
    assert OrderAt(env, m)[..2] == [Root, Baseline];
    UnwoundToPrefix(env, d, m, [Root, Baseline], RootIndex(env));
  }
}
