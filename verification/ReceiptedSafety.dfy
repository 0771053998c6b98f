/** What the Locale switch and the index relocation keep on every run, and when they converge. */
module ReceiptedSafety {
  import opened ReceiptedModel

  // ------------------------------------------------- writes, with third parties about

  predicate Untouched(run: seq<Action>, p: string) {
    forall i :: 0 <= i < |run| && run[i].Write? ==> run[i].path != p
  }

  /** The bytes at `p` are not the preimage of an image: no step may replace them. */
  predicate NotAPreimage(x: Receipt, p: string, asset: Asset) {
    forall i :: 0 <= i < |x.images| && x.images[i].path == p ==> asset != Regular(x.images[i].pre)
  }

  /** On every run, with any third-party writes elsewhere, a path that is no image keeps what it holds, and
      so does an image path that holds anything but its preimage. Guards are such paths. */
  lemma {:induction false} OnlyPreimagesAreReplaced(x: Receipt, s: State, run: seq<Action>, p: string)
    requires Untouched(run, p) && NotAPreimage(x, p, At(s.tree, p))
    ensures At(Exec(x, s, run).tree, p) == At(s.tree, p)
    decreases |run|
  {
    if run != [] {
      var s' := Do(x, s, run[0]);
      assert At(s'.tree, p) == At(s.tree, p);
      OnlyPreimagesAreReplaced(x, s', run[1..], p);
    }
  }

  // --------------------------------------------------------------- the published prefix

  predicate IsImage(x: Receipt, p: string) {
    exists i :: 0 <= i < |x.images| && x.images[i].path == p
  }

  /** Pointwise: image `i` is at its postimage below `m` and at its preimage from `m` on; every other path
      is as in `t0`. */
  ghost predicate PrefixOf(x: Receipt, t0: Tree, t: Tree, m: nat) {
    && m <= |x.images|
    && (forall i :: 0 <= i < |x.images| ==>
          At(t, x.images[i].path) == Regular(if i < m then x.images[i].post else x.images[i].pre))
    && (forall p :: !IsImage(x, p) ==> At(t, p) == At(t0, p))
  }

  ghost predicate Inv(x: Receipt, t0: Tree, s: State) {
    && GuardsHold(x, t0)
    && (s.archived ==> PrefixOf(x, t0, s.tree, |x.images|))
    && match s.proc
       case Idle => exists m: nat :: PrefixOf(x, t0, s.tree, m)
       case Admitting => exists m: nat :: PrefixOf(x, t0, s.tree, m)
       case Publishing(i) => i <= |x.images| && exists m: nat :: i <= m && PrefixOf(x, t0, s.tree, m)
       case Verifying => PrefixOf(x, t0, s.tree, |x.images|)
       case Archiving => PrefixOf(x, t0, s.tree, |x.images|)
       case Removing => PrefixOf(x, t0, s.tree, |x.images|)
  }

  lemma GuardsKept(x: Receipt, t0: Tree, t: Tree, m: nat)
    requires GuardsHold(x, t0) && PrefixOf(x, t0, t, m)
    ensures GuardsHold(x, t)
  {
    forall g | 0 <= g < |x.guards|
      ensures At(t, x.guards[g].path) == Regular(x.guards[g].content)
    {
      assert At(t, x.guards[g].path) == At(t0, x.guards[g].path);
    }
  }

  lemma PublishOne(x: Receipt, t0: Tree, t: Tree, m: nat)
    requires PrefixOf(x, t0, t, m) && m < |x.images|
    ensures PrefixOf(x, t0, t[x.images[m].path := Regular(x.images[m].post)], m + 1)
  {
    var t' := t[x.images[m].path := Regular(x.images[m].post)];
    forall i | 0 <= i < |x.images|
      ensures At(t', x.images[i].path) == Regular(if i < m + 1 then x.images[i].post else x.images[i].pre)
    {
      assert i != m ==> x.images[i].path != x.images[m].path;
    }
  }

  /** A prefix that stops before an image that keeps its bytes is also the next longer prefix. */
  lemma SkipUnchanged(x: Receipt, t0: Tree, t: Tree, m: nat)
    requires PrefixOf(x, t0, t, m) && m < |x.images| && x.images[m].pre == x.images[m].post
    ensures PrefixOf(x, t0, t, m + 1)
  {
  }

  lemma PublishingTick(x: Receipt, t0: Tree, s: State, m: nat)
    requires GuardsHold(x, t0) && PrefixOf(x, t0, s.tree, m)
    requires s.proc.Publishing? && s.proc.next <= m && s.proc.next < |x.images|
    ensures var s' := TickPublishing(x, s);
            s'.proc == Publishing(s.proc.next + 1)
            && PrefixOf(x, t0, s'.tree, if s.proc.next == m then m + 1 else m)
  {
    GuardsKept(x, t0, s.tree, m);
    var i := s.proc.next;
    assert At(s.tree, x.images[i].path) == Regular(if i < m then x.images[i].post else x.images[i].pre);
    if i == m {
      if x.images[m].pre == x.images[m].post {
        SkipUnchanged(x, t0, s.tree, m);
      } else {
        PublishOne(x, t0, s.tree, m);
      }
    }
  }

  lemma ActionKeepsInv(x: Receipt, t0: Tree, s: State, a: Action)
    requires Inv(x, t0, s) && Quiet(a)
    ensures Inv(x, t0, Do(x, s, a))
  {
    if a.Step? && s.proc.Publishing? && s.proc.next < |x.images| {
      var m: nat :| s.proc.next <= m && PrefixOf(x, t0, s.tree, m);
      PublishingTick(x, t0, s, m);
      if s.archived {
        assert forall i :: 0 <= i < |x.images| ==> StateOf(s.tree, x.images[i]) == Postimage;
        assert Do(x, s, a).tree == s.tree;
      }
    }
  }

  lemma {:induction false} RunKeepsInv(x: Receipt, t0: Tree, s: State, run: seq<Action>)
    requires Inv(x, t0, s) && QuietRun(run)
    ensures Inv(x, t0, Exec(x, s, run))
    decreases |run|
  {
    if run != [] {
      ActionKeepsInv(x, t0, s, run[0]);
      RunKeepsInv(x, t0, Do(x, s, run[0]), run[1..]);
    }
  }

  lemma FreshInv(x: Receipt, s: State)
    requires Fresh(x, s)
    ensures Inv(x, s.tree, s) && PrefixOf(x, s.tree, s.tree, 0)
  {
    assert PrefixOf(x, s.tree, s.tree, 0);
  }

  /** Publishing without interruption gives exactly that prefix. */
  lemma {:induction false} PublishedIsPrefix(x: Receipt, t: Tree, m: nat)
    requires m <= |x.images| && PrefixOf(x, t, t, 0)
    ensures PrefixOf(x, t, Published(x, t, m), m)
    decreases m
  {
    if m != 0 {
      PublishedIsPrefix(x, t, m - 1);
      PublishOne(x, t, Published(x, t, m - 1), m - 1);
    }
  }

  /** Crash equivalence: a run interrupted and resumed any number of times that reached the archive ends
      with every path exactly as publishing the Intent without interruption leaves it, guards included. */
  lemma CrashEquivalence(x: Receipt, s: State, run: seq<Action>, p: string)
    requires Fresh(x, s) && QuietRun(run) && Exec(x, s, run).archived
    ensures At(Exec(x, s, run).tree, p) == At(Published(x, s.tree, |x.images|), p)
    ensures GuardsHold(x, Exec(x, s, run).tree)
  {
    FreshInv(x, s);
    RunKeepsInv(x, s.tree, s, run);
    PublishedIsPrefix(x, s.tree, |x.images|);
    var e := Exec(x, s, run);
    GuardsKept(x, s.tree, e.tree, |x.images|);
    var q := Published(x, s.tree, |x.images|);
    if i :| 0 <= i < |x.images| && x.images[i].path == p {
      assert At(e.tree, x.images[i].path) == At(q, x.images[i].path);
    }
  }

  /** On every run, interrupted anywhere, the guards hold and the images are a prefix of the publication. */
  lemma GuardsAndPrefixOnEveryRun(x: Receipt, s: State, run: seq<Action>)
    requires Fresh(x, s) && QuietRun(run)
    ensures GuardsHold(x, Exec(x, s, run).tree)
    ensures exists m: nat :: PrefixOf(x, s.tree, Exec(x, s, run).tree, m)
  {
    FreshInv(x, s);
    RunKeepsInv(x, s.tree, s, run);
    var m: nat :| PrefixOf(x, s.tree, Exec(x, s, run).tree, m);
    GuardsKept(x, s.tree, Exec(x, s, run).tree, m);
  }

  /** The Baseline never runs ahead: when the last image is a Baseline that changes, finding its postimage
      on disk means that every other image is already at its postimage. */
  lemma LastImageMeansAll(x: Receipt, s: State, run: seq<Action>)
    requires Fresh(x, s) && QuietRun(run)
    requires var last := x.images[|x.images| - 1];
             last.pre != last.post && At(Exec(x, s, run).tree, last.path) == Regular(last.post)
    ensures forall i :: 0 <= i < |x.images| ==> At(Exec(x, s, run).tree, x.images[i].path) == Regular(x.images[i].post)
  {
    GuardsAndPrefixOnEveryRun(x, s, run);
    var t := Exec(x, s, run).tree;
    var m: nat :| PrefixOf(x, s.tree, t, m);
    var last := x.images[|x.images| - 1];
    assert m < |x.images| ==> At(t, last.path) == Regular(last.pre);
  }

  // ------------------------------------------------------------------------- refusals

  /** Reference definitions, on contents alone. */
  ghost predicate GuardWrong(x: Receipt, t: Tree) {
    exists g :: 0 <= g < |x.guards| && At(t, x.guards[g].path) != Regular(x.guards[g].content)
  }

  ghost predicate Alien(image: Image, asset: Asset) {
    asset != Regular(image.pre) && asset != Regular(image.post)
  }

  ghost predicate HasAlien(x: Receipt, t: Tree) {
    exists i :: 0 <= i < |x.images| && Alien(x.images[i], At(t, x.images[i].path))
  }

  /** A published image follows one that is not. */
  ghost predicate OutOfOrder(x: Receipt, t: Tree) {
    exists i, j :: 0 <= i < j < |x.images|
                   && At(t, x.images[i].path) != Regular(x.images[i].post) && At(t, x.images[j].path) == Regular(x.images[j].post)
  }

  ghost predicate EveryImage(x: Receipt, t: Tree) {
    forall i :: 0 <= i < |x.images| ==> At(t, x.images[i].path) == Regular(x.images[i].post)
  }

  /** The guard check, the order scan and the proof of the result, on contents. */
  lemma ChecksMean(x: Receipt, t: Tree)
    ensures GuardsHold(x, t) <==> !GuardWrong(x, t)
    ensures InOrder(x, t) <==> !HasAlien(x, t) && !OutOfOrder(x, t)
    ensures AllPublished(x, t) <==> EveryImage(x, t)
  {
    forall i | 0 <= i < |x.images|
      ensures StateOf(t, x.images[i]) == Postimage <==> At(t, x.images[i].path) == Regular(x.images[i].post)
      ensures StateOf(t, x.images[i]) == Foreign <==> Alien(x.images[i], At(t, x.images[i].path))
    {
    }
  }

  /** While one guard is not as the Intent has it, no path changes on any run but by third parties: wherever the
      command stands, and whatever its earlier checks read. */
  lemma {:induction false} WrongGuardStops(x: Receipt, s: State, run: seq<Action>, g: nat, p: string)
    requires g < |x.guards| && At(s.tree, x.guards[g].path) != Regular(x.guards[g].content)
    requires Untouched(run, x.guards[g].path) && Untouched(run, p)
    ensures At(Exec(x, s, run).tree, p) == At(s.tree, p)
    decreases |run|
  {
    if run != [] {
      assert !GuardsHold(x, s.tree);
      var s' := Do(x, s, run[0]);
      assert run[0].Step? ==> s'.tree == s.tree;
      WrongGuardStops(x, s', run[1..], g, p);
    }
  }

  predicate NoTorn(run: seq<Action>) { forall i :: 0 <= i < |run| ==> !run[i].Torn? }

  predicate PastProof(proc: Process) { proc.Archiving? || proc.Removing? }

  /** Nor is the Intent archived or removed, wherever the command stands before its proof of the result. */
  lemma {:induction false} NoArchiveOverWrongGuard(x: Receipt, s: State, run: seq<Action>, g: nat)
    requires g < |x.guards| && At(s.tree, x.guards[g].path) != Regular(x.guards[g].content)
    requires Untouched(run, x.guards[g].path) && NoTorn(run) && !PastProof(s.proc)
    ensures Exec(x, s, run).archived == s.archived && Exec(x, s, run).active == s.active
    decreases |run|
  {
    if run != [] {
      assert !GuardsHold(x, s.tree);
      var s' := Do(x, s, run[0]);
      assert run[0].Step? ==> s'.tree == s.tree;
      NoArchiveOverWrongGuard(x, s', run[1..], g);
    }
  }

  /** The same over an image that holds neither of its contents. */
  lemma {:induction false} NoArchiveOverAlien(x: Receipt, s: State, run: seq<Action>, i: nat)
    requires i < |x.images| && Alien(x.images[i], At(s.tree, x.images[i].path)) && Untouched(run, x.images[i].path)
    requires NoTorn(run) && !PastProof(s.proc)
    ensures Exec(x, s, run).archived == s.archived && Exec(x, s, run).active == s.active
    decreases |run|
  {
    if run != [] {
      assert StateOf(s.tree, x.images[i]) == Foreign;
      var s' := Do(x, s, run[0]);
      assert At(s'.tree, x.images[i].path) == At(s.tree, x.images[i].path);
      NoArchiveOverAlien(x, s', run[1..], i);
    }
  }

  predicate Waiting(proc: Process) { proc == Idle || proc == Admitting }

  /** A command that has not begun to publish writes nothing while some image holds neither of its contents, ... */
  lemma {:induction false} AlienStops(x: Receipt, s: State, run: seq<Action>, i: nat, p: string)
    requires i < |x.images| && Alien(x.images[i], At(s.tree, x.images[i].path)) && Untouched(run, x.images[i].path)
    requires NoTorn(run) && Waiting(s.proc) && Untouched(run, p)
    ensures At(Exec(x, s, run).tree, p) == At(s.tree, p)
    decreases |run|
  {
    if run != [] {
      assert StateOf(s.tree, x.images[i]) == Foreign;
      AlienStops(x, Do(x, s, run[0]), run[1..], i, p);
    }
  }

  /** ... or one is published and an earlier one is not. */
  lemma {:induction false} OutOfOrderStops(x: Receipt, s: State, run: seq<Action>, i: nat, j: nat, p: string)
    requires i < j < |x.images| && NoTorn(run) && Waiting(s.proc) && Untouched(run, p)
    requires At(s.tree, x.images[i].path) != Regular(x.images[i].post) && Untouched(run, x.images[i].path)
    requires At(s.tree, x.images[j].path) == Regular(x.images[j].post) && Untouched(run, x.images[j].path)
    ensures At(Exec(x, s, run).tree, p) == At(s.tree, p)
    decreases |run|
  {
    if run != [] {
      assert StateOf(s.tree, x.images[j]) == Postimage && StateOf(s.tree, x.images[i]) != Postimage;
      OutOfOrderStops(x, Do(x, s, run[0]), run[1..], i, j, p);
    }
  }

  /** Once the active Intent is removed, running the command again changes nothing of this transaction. */
  lemma {:induction false} RemovedIntentIsFinal(x: Receipt, s: State, run: seq<Action>)
    requires !s.active && s.proc == Idle && QuietRun(run)
    ensures Exec(x, s, run) == s
    decreases |run|
  {
    if run != [] {
      RemovedIntentIsFinal(x, s, run[1..]);
    }
  }

  // --------------------------------------------------------------------- convergence

  ghost function StepN(x: Receipt, s: State, k: nat): State
    decreases k
  {
    if k == 0 then s else StepN(x, Tick(x, s), k - 1)
  }

  ghost predicate Reaches(x: Receipt, s: State, e: State) {
    exists k: nat :: StepN(x, s, k) == e
  }

  lemma ReachesFurther(x: Receipt, s: State, s': State, e: State)
    requires Tick(x, s) == s' && Reaches(x, s', e)
    ensures Reaches(x, s, e)
  {
    var k: nat :| StepN(x, s', k) == e;
    assert StepN(x, s, k + 1) == e;
  }

  lemma VerifiedArchives(x: Receipt, t0: Tree, s: State)
    requires GuardsHold(x, t0) && PrefixOf(x, t0, s.tree, |x.images|) && s.proc == Verifying
    ensures Reaches(x, s, s.(archived := true, active := false, proc := Idle))
  {
    GuardsKept(x, t0, s.tree, |x.images|);
    var s1 := s.(proc := Archiving);
    var s2 := s.(archived := true, proc := Removing);
    var e := s.(archived := true, active := false, proc := Idle);
    assert StepN(x, e, 0) == e;
    ReachesFurther(x, s2, e, e);
    ReachesFurther(x, s1, s2, e);
    ReachesFurther(x, s, s1, e);
  }

  lemma {:induction false} PublishingConverges(x: Receipt, t0: Tree, s: State, m: nat) returns (e: State)
    requires GuardsHold(x, t0) && PrefixOf(x, t0, s.tree, m) && s.proc.Publishing? && s.proc.next <= m
    ensures Reaches(x, s, e) && PrefixOf(x, t0, e.tree, |x.images|)
    ensures e == s.(tree := e.tree, archived := true, active := false, proc := Idle)
    decreases |x.images| - s.proc.next
  {
    var s1 := TickPublishing(x, s);
    if s.proc.next == |x.images| {
      VerifiedArchives(x, t0, s1);
      e := s1.(archived := true, active := false, proc := Idle);
    } else {
      PublishingTick(x, t0, s, m);
      e := PublishingConverges(x, t0, s1, if s.proc.next == m then m + 1 else m);
    }
    ReachesFurther(x, s, s1, e);
  }

  /** The scan accepts every prefix of an Intent whose changes come first. */
  lemma ScanAccepts(x: Receipt, t0: Tree, t: Tree, m: nat)
    requires PrefixOf(x, t0, t, m) && ChangesFirst(x.images)
    ensures InOrder(x, t)
  {
    forall i | 0 <= i < |x.images|
      ensures StateOf(t, x.images[i]) == if i < m || x.images[i].pre == x.images[i].post then Postimage else Preimage
    {
      assert At(t, x.images[i].path) == Regular(if i < m then x.images[i].post else x.images[i].pre);
    }
  }

  /** From every interrupted state of such an Intent the same command runs to the archive. */
  lemma ResumeConverges(x: Receipt, s: State, run: seq<Action>) returns (e: State)
    requires Fresh(x, s) && QuietRun(run) && ChangesFirst(x.images)
    requires Exec(x, s, run).proc == Idle && Exec(x, s, run).active
    ensures Reaches(x, Do(x, Exec(x, s, run), Start), e)
    ensures e.archived && !e.active && e.proc == Idle && AllPublished(x, e.tree)
  {
    FreshInv(x, s);
    RunKeepsInv(x, s.tree, s, run);
    var t := Exec(x, s, run);
    var m: nat :| PrefixOf(x, s.tree, t.tree, m);
    GuardsKept(x, s.tree, t.tree, m);
    ScanAccepts(x, s.tree, t.tree, m);
    var s0 := t.(proc := Admitting);
    e := PublishingConverges(x, s.tree, t.(proc := Publishing(0)), m);
    ReachesFurther(x, s0, t.(proc := Publishing(0)), e);
    forall i | 0 <= i < |x.images|
      ensures StateOf(e.tree, x.images[i]) == Postimage
    {
      assert At(e.tree, x.images[i].path) == Regular(x.images[i].post);
    }
  }

  /** An Intent with an unchanged image after a changing one never moves: every run leaves the whole disk
      as it was and the Intent pending. */
  lemma {:induction false} UnchangedAfterChangeIsStuck(x: Receipt, s: State, run: seq<Action>)
    requires !ChangesFirst(x.images) && s.active && !s.archived && s.proc in {Idle, Admitting} && QuietRun(run)
    requires forall i :: 0 <= i < |x.images| ==> At(s.tree, x.images[i].path) == Regular(x.images[i].pre)
    ensures Exec(x, s, run) == s.(proc := Exec(x, s, run).proc)
    decreases |run|
  {
    if run != [] {
      var i, j :| 0 <= i < j < |x.images| && x.images[j].pre == x.images[j].post && x.images[i].pre != x.images[i].post;
      assert At(s.tree, x.images[i].path) == Regular(x.images[i].pre);
      assert At(s.tree, x.images[j].path) == Regular(x.images[j].pre);
      assert StateOf(s.tree, x.images[j]) == Postimage && StateOf(s.tree, x.images[i]) == Preimage;
      assert !InOrder(x, s.tree);
      var s' := Do(x, s, run[0]);
      assert s' == s.(proc := s'.proc) && s'.proc in {Idle, Admitting};
      UnchangedAfterChangeIsStuck(x, s', run[1..]);
    }
  }

  /** Exactly when a fresh Intent can be carried out at all. */
  lemma CarriedOutIffChangesFirst(x: Receipt, s: State)
    requires Fresh(x, s)
    ensures (exists run :: QuietRun(run) && Exec(x, s, run).archived) <==> ChangesFirst(x.images)
  {
    if ChangesFirst(x.images) {
      assert Exec(x, s, []) == s;
      var e := ResumeConverges(x, s, []);
      var k: nat :| StepN(x, Do(x, s, Start), k) == e;
      var steps := seq(k, _ => Step);
      StepNIsExec(x, Do(x, s, Start), k);
      assert ([Start] + steps)[1..] == steps;
      assert QuietRun([Start] + steps) && Exec(x, s, [Start] + steps).archived;
    } else {
      forall run | QuietRun(run)
        ensures !Exec(x, s, run).archived
      {
        UnchangedAfterChangeIsStuck(x, s, run);
      }
    }
  }

  lemma {:induction false} StepNIsExec(x: Receipt, s: State, k: nat)
    ensures Exec(x, s, seq(k, _ => Step)) == StepN(x, s, k)
    decreases k
  {
    var steps := seq(k, _ => Step);
    if k != 0 {
      assert steps[0] == Step && steps[1..] == seq(k - 1, _ => Step);
      StepNIsExec(x, Tick(x, s), k - 1);
    }
  }
}
