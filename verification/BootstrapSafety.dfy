/** What every step of Apply, Resume, Rollback and a crash keeps, and the activation rule over whole runs. */
module BootstrapSafety {
  import opened Contents
  import opened BootstrapModel

  // ------------------------------------------------------------------ shapes

  /** Exactly the first `m` items are published, every other item is untouched. */
  predicate PrefixAt(env: Plan, d: Disk, m: int) {
    && 0 <= m <= |env.items|
    && forall k :: 0 <= k < |env.items| ==>
         At(d, env.items[k].path) == if k < m then File(env.items[k].post) else PreNode(env.items[k])
  }

  /** Root is back at its preimage while the Baseline and every Volume are still published. */
  predicate SplitAt(env: Plan, d: Disk) {
    forall k :: 0 <= k < |env.items| ==>
      At(d, env.items[k].path) == if k == RootIndex(env) then PreNode(env.items[k]) else File(env.items[k].post)
  }

  ghost predicate Shaped(env: Plan, d: Disk) {
    (exists m :: PrefixAt(env, d, m)) || SplitAt(env, d)
  }

  predicate FullyPublished(env: Plan, d: Disk) {
    PrefixAt(env, d, |env.items|)
  }

  /** Publishing Root changes it. An intent exists only for such envelopes. */
  predicate Distinct(env: Plan) {
    env.items[RootIndex(env)].pre != Some(env.items[RootIndex(env)].post)
  }

  lemma PrefixStates(env: Plan, d: Disk, m: int)
    requires Distinct(env) && PrefixAt(env, d, m)
    ensures forall k :: 0 <= k < |env.items| ==> StateOf(env, d, k) == if k < m then Postimage else Preimage
    ensures Orderly(env, d)
    ensures AllPostimages(env, d) <==> m == |env.items|
    ensures AllPreimages(env, d) <==> m == 0
    ensures Activated(env, d) <==> RootIndex(env) < m
  {
    forall k | 0 <= k < |env.items|
      ensures StateOf(env, d, k) == if k < m then Postimage else Preimage
    {
      assert At(d, env.items[k].path) == if k < m then File(env.items[k].post) else PreNode(env.items[k]);
    }
    assert m < |env.items| ==> StateOf(env, d, m) == Preimage;
    assert 0 < m ==> StateOf(env, d, 0) == Postimage;
  }

  lemma SplitStates(env: Plan, d: Disk)
    requires Distinct(env) && SplitAt(env, d)
    ensures StateOf(env, d, RootIndex(env)) == Preimage
    ensures StateOf(env, d, RootIndex(env) + 1) == Postimage
    ensures !Orderly(env, d)
  {
    var r := RootIndex(env);
    assert At(d, env.items[r].path) == PreNode(env.items[r]);
    assert At(d, env.items[r + 1].path) == File(env.items[r + 1].post);
  }

  lemma PrefixUnique(env: Plan, d: Disk, m: int, m': int)
    requires Distinct(env) && PrefixAt(env, d, m) && PrefixAt(env, d, m')
    ensures m == m'
  {
    PrefixStates(env, d, m);
    PrefixStates(env, d, m');
    assert m < |env.items| ==> (StateOf(env, d, m) == Postimage <==> m < m');
    assert m' < |env.items| ==> (StateOf(env, d, m') == Postimage <==> m' < m);
  }

  // --------------------------------------------------- the disk in mid-rollback

  /** The disk while Rollback walks its order: what it saw at the start, with the walked paths back at
      their preimage. */
  predicate Unwound(env: Plan, d: Disk, m: int, done: seq<Path>) {
    forall k :: 0 <= k < |env.items| ==>
      At(d, env.items[k].path) ==
        if k < m && env.items[k].path !in done then File(env.items[k].post) else PreNode(env.items[k])
  }

  predicate RollingFrom(env: Plan, d: Disk, seen: Disk, next: nat, m: int) {
    && PrefixAt(env, seen, m)
    && next <= |RollbackOrder(RootIndex(env) < m)|
    && Unwound(env, d, m, RollbackOrder(RootIndex(env) < m)[..next])
  }

  /** How many Volumes survive once the last `q` of Database, Code, Meta were walked. */
  function VolumesKept(env: Plan, q: nat): nat {
    if q == 0 then RootIndex(env)
    else if q == 1 then if |env.items| == 5 || env.items[1].path == Code then 2 else 1
    else if q == 2 then 1 else 0
  }

  /** The Volumes still published after `q` walked paths are the first ones. */
  lemma KeptVolumes(env: Plan, q: nat, k: nat)
    requires q <= 3 && k < RootIndex(env)
    ensures env.items[k].path !in [Database, Code, Meta][..q] <==> k < VolumesKept(env, q)
  {
    var walked := [Database, Code, Meta];
    if q == 0 {
      assert walked[..q] == [];
    } else if q == 1 {
      assert walked[..q] == [Database];
    } else if q == 2 {
      assert walked[..q] == [Database, Code];
    } else {
      assert walked[..q] == walked;
    }
  }

  lemma UnwoundToPrefix(env: Plan, d: Disk, m: int, done: seq<Path>, m': int)
    requires Unwound(env, d, m, done) && 0 <= m' <= |env.items|
    requires forall k :: 0 <= k < |env.items| ==> (k < m' <==> k < m && env.items[k].path !in done)
    ensures PrefixAt(env, d, m')
  {
  }

  /** The part of the walk over the Volumes. */
  lemma VolumesUnwound(env: Plan, d: Disk, seen: Disk, next: nat, m: int)
    requires RollingFrom(env, d, seen, next, m) && (RootIndex(env) < m ==> 2 <= next)
    ensures exists k :: k <= m && PrefixAt(env, d, k)
    ensures next == |RollbackOrder(RootIndex(env) < m)| ==> PrefixAt(env, d, 0)
  {
    var front := if RootIndex(env) < m then [Root, Baseline] else [];
    var q := next - |front|;
    var base := if RootIndex(env) < m then RootIndex(env) else m;
    var kept := if VolumesKept(env, q) < base then VolumesKept(env, q) else base;
    var done := RollbackOrder(RootIndex(env) < m)[..next];
    assert done == front + [Database, Code, Meta][..q];
    forall k | 0 <= k < |env.items|
      ensures k < kept <==> k < m && env.items[k].path !in done
    {
      if k < RootIndex(env) {
        KeptVolumes(env, q, k);
      }
    }
    UnwoundToPrefix(env, d, m, done, kept);
  }

  /** What a Rollback in progress leaves: a prefix, except after Root and before the Baseline. */
  lemma UnwindingKeepsShape(env: Plan, d: Disk, seen: Disk, next: nat, m: int)
    requires RollingFrom(env, d, seen, next, m)
    ensures next == 1 && m == |env.items| ==> SplitAt(env, d)
    ensures !(next == 1 && m == |env.items|) ==> exists k :: k <= m && PrefixAt(env, d, k)
    ensures next == |RollbackOrder(RootIndex(env) < m)| ==> PrefixAt(env, d, 0)
  {
    var done := RollbackOrder(RootIndex(env) < m)[..next];
    if m <= RootIndex(env) || 2 <= next {
      VolumesUnwound(env, d, seen, next, m);
    } else if next == 0 {
      UnwoundToPrefix(env, d, m, done, m);
    } else {
      assert done == [Root];
      if m < |env.items| {
        UnwoundToPrefix(env, d, m, done, RootIndex(env));
      }
    }
  }

  /** A published item goes back, and nothing else moves. */
  lemma UnwindOne(env: Plan, d: Disk, m: int, done: seq<Path>, f: nat)
    requires f < |env.items| && Unwound(env, d, m, done)
    ensures Unwound(env, d[env.items[f].path := PreNode(env.items[f])], m, done + [env.items[f].path])
  {
    var p := env.items[f].path;
    var d' := d[p := PreNode(env.items[f])];
    forall k | 0 <= k < |env.items|
      ensures At(d', env.items[k].path) ==
                if k < m && env.items[k].path !in done + [p] then File(env.items[k].post) else PreNode(env.items[k])
    {
      assert k != f ==> env.items[k].path != p;
    }
  }

  /** A walked path that was not published, or is not declared, changes nothing. */
  lemma UnwindNone(env: Plan, d: Disk, m: int, done: seq<Path>, p: Path)
    requires Unwound(env, d, m, done) && m <= Find(env, p)
    ensures Unwound(env, d, m, done + [p])
  {
  }

  /** One round of Rollback's loop, whatever it does to the disk. */
  lemma UndoUnwinds(env: Plan, d: Disk, recovered: map<Slot, Bytes>, seen: Disk, i: nat, p: Path, m: int, done: seq<Path>)
    requires Distinct(env) && PrefixAt(env, seen, m) && Unwound(env, d, m, done)
    ensures var u := Undo(env, d, recovered, seen, i, p);
            u.Some? ==> Unwound(env, u.value.formal, m, done + [p])
  {
    PrefixStates(env, seen, m);
    var f := Find(env, p);
    if m <= f {
      UnwindNone(env, d, m, done, p);
    } else {
      UnwindOne(env, d, m, done, f);
    }
  }

  /** What one round of Rollback's loop makes of the state, whichever way it goes. */
  lemma WalkedRound(env: Plan, s: State, p: Path)
    requires s.proc.RollingBack? && s.proc.next < |RollbackOrder(Activated(env, s.proc.seen))|
    requires p == RollbackOrder(Activated(env, s.proc.seen))[s.proc.next]
    ensures var u := Undo(env, s.formal, s.recovered, s.proc.seen, s.proc.next, p);
            var moved := s.proc.moved;
            if u.None? then TickRollingBack(env, s) == s.(proc := Idle)
            else TickRollingBack(env, s) == s.(formal := u.value.formal, recovered := u.value.recovered,
                   proc := RollingBack(s.proc.seen, s.proc.next + 1, if u.value.moved then moved + [p] else moved))
  {
  }

  /** One step of a Rollback in progress: it walks one path further, or stops without a write. */
  lemma RollingTick(env: Plan, s: State, m: int)
    requires Distinct(env) && s.proc.RollingBack? && RollingFrom(env, s.formal, s.proc.seen, s.proc.next, m)
    requires s.proc.next < |RollbackOrder(RootIndex(env) < m)|
    ensures var s' := TickRollingBack(env, s);
            if s'.proc.RollingBack?
            then s'.proc.seen == s.proc.seen && s'.proc.next == s.proc.next + 1
                 && RollingFrom(env, s'.formal, s.proc.seen, s.proc.next + 1, m)
            else s' == s.(proc := Idle)
  {
    PrefixStates(env, s.proc.seen, m);
    var next := s.proc.next;
    var order := RollbackOrder(RootIndex(env) < m);
    assert order[..next + 1] == order[..next] + [order[next]];
    UndoUnwinds(env, s.formal, s.recovered, s.proc.seen, next, order[next], m, order[..next]);
    WalkedRound(env, s, order[next]);
  }

  // --------------------------------------------------------------- invariant

  ghost predicate AtControlPoint(env: Plan, s: State) {
    match s.proc
    case Idle => true
    case Preparing => !s.intent && !s.archive
    case Staging(i) =>
      && !s.intent && !s.archive && Distinct(env) && PrefixAt(env, s.formal, 0) && i <= |env.items|
      && forall j :: 0 <= j < i ==> StagedAt(s.staging, j) == File(env.items[j].post)
    case SavingIntent =>
      !s.intent && !s.archive && Distinct(env) && PrefixAt(env, s.formal, 0) && StagingIntact(env, s.staging)
    case Inspecting(i) =>
      s.intent && i < |env.items| && (i == 0 || exists m :: i <= m && PrefixAt(env, s.formal, m))
    case Advancing(seen, i) =>
      s.intent && i < |env.items| && seen == s.formal && exists m :: i <= m && PrefixAt(env, s.formal, m)
    case Verifying => s.intent && FullyPublished(env, s.formal)
    case Completing => s.intent && FullyPublished(env, s.formal)
    case Archiving => s.intent && (s.completion || s.rollback.Some?)
    case Removing => s.intent && s.archive
    case RollbackInspecting => s.intent && !s.completion
    case RollingBack(seen, next, moved) =>
      s.intent && !s.completion && exists m :: RollingFrom(env, s.formal, seen, next, m)
    case RollbackVerifying(moved) => s.intent && !s.completion && PrefixAt(env, s.formal, 0)
    case WritingReceipt(moved) => s.intent && !s.completion && PrefixAt(env, s.formal, 0)
  }

  /** What holds in every state that no third party touched. */
  ghost predicate Inv(env: Plan, s: State) {
    && (s.intent || s.archive ==> Distinct(env) && Shaped(env, s.formal) && StagingIntact(env, s.staging))
    && (s.archive ==> s.completion || s.rollback.Some?)
    && (s.completion ==> FullyPublished(env, s.formal))
    && (!s.intent && !s.archive ==> !s.completion && s.rollback.None?)
    && AtControlPoint(env, s)
  }

  lemma PublishExtendsPrefix(env: Plan, d: Disk, area: StagingArea, m: int)
    requires StagingIntact(env, area) && PrefixAt(env, d, m) && m < |env.items|
    ensures Publish(env, d, area, m).Some?
    ensures PrefixAt(env, Publish(env, d, area, m).value, m + 1)
  {
    assert StagedAt(area, m) == File(env.items[m].post);
    assert At(d, env.items[m].path) == PreNode(env.items[m]);
    var d' := Publish(env, d, area, m).value;
    forall k | 0 <= k < |env.items|
      ensures At(d', env.items[k].path) ==
                if k < m + 1 then File(env.items[k].post) else PreNode(env.items[k])
    {
      assert k != m ==> env.items[k].path != env.items[m].path;
    }
  }

  /** One step of advanceTransaction's loop from a prefix of length `m`. */
  lemma AdvancingTick(env: Plan, s: State, m: int)
    requires Distinct(env) && StagingIntact(env, s.staging) && PrefixAt(env, s.formal, m)
    requires s.proc.Advancing? && s.proc.seen == s.formal && s.proc.next <= m && s.proc.next < |env.items|
    ensures var s' := TickAdvancing(env, s);
            var last := s.proc.next == |env.items| - 1;
            && PrefixAt(env, s'.formal, if s.proc.next == m then m + 1 else m)
            && (s.proc.next < m ==> s'.formal == s.formal)
            && s'.proc == if last then Verifying
                          else if s.proc.next == m then Inspecting(m + 1)
                          else Advancing(s.formal, s.proc.next + 1)
  {
    PrefixStates(env, s.formal, m);
    if s.proc.next == m {
      PublishExtendsPrefix(env, s.formal, s.staging, m);
    }
  }

  lemma AdvancingKeepsInv(env: Plan, s: State)
    requires Inv(env, s) && s.proc.Advancing?
    ensures Inv(env, TickAdvancing(env, s))
  {
    var m :| s.proc.next <= m && PrefixAt(env, s.formal, m);
    AdvancingTick(env, s, m);
    if s.completion {
      PrefixUnique(env, s.formal, m, |env.items|);
    }
  }

  /** A disk on which the Prepare replay and the order rule agree has nothing published, and publishing Root
      changes it. */
  lemma ReplayedIsFresh(env: Plan, d: Disk)
    requires Orderly(env, d) && ReplaysPrepare(env, d)
    ensures Distinct(env) && PrefixAt(env, d, 0)
  {
    var r := RootIndex(env);
    assert At(d, env.items[0].path) == PreNode(env.items[0]);
    assert At(d, env.items[r].path) == PreNode(env.items[r]);
    assert StateOf(env, d, 0) == Preimage;
    assert StateOf(env, d, r) != Postimage;
  }

  lemma PreparingKeepsInv(env: Plan, s: State)
    requires Inv(env, s) && s.proc.Preparing?
    ensures Inv(env, Tick(env, s))
  {
    if Orderly(env, s.formal) && ReplaysPrepare(env, s.formal) {
      ReplayedIsFresh(env, s.formal);
    }
  }

  lemma InspectingKeepsInv(env: Plan, s: State)
    requires Inv(env, s) && (s.proc.Inspecting? || s.proc.RollbackInspecting?)
    ensures Inv(env, Tick(env, s))
  {
    if SplitAt(env, s.formal) {
      SplitStates(env, s.formal);
    } else {
      var m :| PrefixAt(env, s.formal, m);
      PrefixStates(env, s.formal, m);
      if s.proc.RollbackInspecting? {
        assert RollbackOrder(RootIndex(env) < m)[..0] == [];
        assert RollingFrom(env, s.formal, s.formal, 0, m);
      }
    }
  }

  lemma RollingEnds(env: Plan, s: State, m: int)
    requires Distinct(env) && s.proc.RollingBack? && RollingFrom(env, s.formal, s.proc.seen, s.proc.next, m)
    requires s.proc.next == |RollbackOrder(RootIndex(env) < m)|
    ensures TickRollingBack(env, s) == s.(proc := RollbackVerifying(s.proc.moved))
    ensures PrefixAt(env, s.formal, 0)
  {
    PrefixStates(env, s.proc.seen, m);
    UnwindingKeepsShape(env, s.formal, s.proc.seen, s.proc.next, m);
  }

  lemma RollingShaped(env: Plan, d: Disk, seen: Disk, next: nat, m: int)
    requires RollingFrom(env, d, seen, next, m)
    ensures Shaped(env, d)
  {
    UnwindingKeepsShape(env, d, seen, next, m);
  }

  lemma RollingKeepsInv(env: Plan, s: State)
    requires Inv(env, s) && s.proc.RollingBack?
    ensures Inv(env, TickRollingBack(env, s))
  {
    var m :| RollingFrom(env, s.formal, s.proc.seen, s.proc.next, m);
    if s.proc.next < |RollbackOrder(RootIndex(env) < m)| {
      RollingTick(env, s, m);
      var s' := TickRollingBack(env, s);
      if s'.proc.RollingBack? {
        RollingShaped(env, s'.formal, s.proc.seen, s.proc.next + 1, m);
      }
    } else {
      RollingEnds(env, s, m);
    }
  }

  lemma StagingKeepsInv(env: Plan, s: State)
    requires Inv(env, s) && s.proc.Staging?
    ensures Inv(env, TickStaging(env, s))
  {
    var s' := TickStaging(env, s);
    var i := s.proc.next;
    if i < |env.items| && s'.proc == Staging(i + 1) {
      assert StagedAt(s'.staging, i) == File(env.items[i].post);
      assert forall j :: 0 <= j < i ==> StagedAt(s'.staging, j) == StagedAt(s.staging, j);
    }
  }

  /** The last two readings accept what the control point already guarantees. */
  lemma ChecksKeepInv(env: Plan, s: State)
    requires Inv(env, s) && (s.proc.Verifying? || s.proc.RollbackVerifying?)
    ensures Inv(env, Tick(env, s))
  {
  }

  /** The steps that write or remove a receipt leave the formal paths alone. */
  lemma ReceiptsKeepInv(env: Plan, s: State)
    requires Inv(env, s)
    requires !s.proc.Staging? && !s.proc.Advancing? && !s.proc.RollingBack? && !Reads(s.proc)
    ensures Inv(env, TickReceipt(s))
  {
    if s.proc.SavingIntent? {
      assert Shaped(env, s.formal);
    }
  }

  lemma TickKeepsInv(env: Plan, s: State)
    requires Inv(env, s)
    ensures Inv(env, Tick(env, s))
  {
    if s.proc.Staging? {
      StagingKeepsInv(env, s);
    } else if s.proc.Advancing? {
      AdvancingKeepsInv(env, s);
    } else if s.proc.RollingBack? {
      RollingKeepsInv(env, s);
    } else if s.proc.Preparing? {
      PreparingKeepsInv(env, s);
    } else if s.proc.Inspecting? || s.proc.RollbackInspecting? {
      InspectingKeepsInv(env, s);
    } else if Reads(s.proc) {
      ChecksKeepInv(env, s);
    } else {
      ReceiptsKeepInv(env, s);
    }
  }

  lemma QuietActionKeepsInv(env: Plan, s: State, a: Action)
    requires Inv(env, s) && Quiet(a)
    ensures Inv(env, Do(env, s, a))
  {
    if a.Step? {
      TickKeepsInv(env, s);
    }
  }

  lemma {:induction false} QuietRunKeepsInv(env: Plan, s: State, run: seq<Action>)
    requires Inv(env, s) && QuietRun(run)
    ensures Inv(env, Exec(env, s, run))
    decreases |run|
  {
    if run != [] {
      QuietActionKeepsInv(env, s, run[0]);
      QuietRunKeepsInv(env, Do(env, s, run[0]), run[1..]);
    }
  }

  // ------------------------------------------------------------------ theorems

  /** Activation safety: on every interleaving of Apply, Resume, Rollback and crashes, once the
      transaction exists a published Root implies that Meta and every declared object Volume are. */
  lemma ActivationSafety(env: Plan, s: State, run: seq<Action>)
    requires Initial(s) && QuietRun(run)
    ensures var e := Exec(env, s, run);
            (e.intent || e.archive) && At(e.formal, Root) == File(env.items[RootIndex(env)].post) ==>
              forall k :: 0 <= k < RootIndex(env) ==> At(e.formal, env.items[k].path) == File(env.items[k].post)
  {
    QuietRunKeepsInv(env, s, run);
    var e := Exec(env, s, run);
    var r := RootIndex(env);
    if (e.intent || e.archive) && At(e.formal, Root) == File(env.items[r].post) && !SplitAt(env, e.formal) {
      var m :| PrefixAt(env, e.formal, m);
      assert At(e.formal, env.items[r].path) == File(env.items[r].post);
    }
  }
}
