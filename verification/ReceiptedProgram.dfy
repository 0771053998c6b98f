/** The advance loops and the planners of the Locale switch and the index relocation as programs. */
module ReceiptedProgram {
  import opened ReceiptedModel
  import opened ReceiptedSafety

  lemma ReachesNext(x: Receipt, s: State, at: State, next: State)
    requires Reaches(x, s, at) && Tick(x, at) == next
    ensures Reaches(x, s, next)
  {
    var k: nat :| StepN(x, s, k) == at;
    StepNLast(x, s, k);
  }

  lemma {:induction false} StepNLast(x: Receipt, s: State, k: nat)
    ensures StepN(x, s, k + 1) == Tick(x, StepN(x, s, k))
    decreases k
  {
    if k != 0 {
      StepNLast(x, Tick(x, s), k - 1);
    }
  }

  /** The files of one transaction. */
  class Repository {
    var tree: Tree
    var active: bool
    var archived: bool

    ghost function View(proc: Process): State
      reads this
    {
      State(tree, active, archived, proc)
    }

    method CheckGuards(x: Receipt) returns (ok: bool)
      ensures ok <==> GuardsHold(x, tree)
    {
      for g := 0 to |x.guards|
        invariant forall k :: 0 <= k < g ==> At(tree, x.guards[k].path) == Regular(x.guards[k].content)
      {
        if At(tree, x.guards[g].path) != Regular(x.guards[g].content) {
          return false;
        }
      }
      return true;
    }

    /** The first loop of the advance functions, with its seenPreimage flag. */
    method ScanOrder(x: Receipt) returns (ok: bool)
      ensures ok <==> InOrder(x, tree)
    {
      var seenPreimage := false;
      for i := 0 to |x.images|
        invariant forall k :: 0 <= k < i ==> StateOf(tree, x.images[k]) != Foreign
        invariant forall j, k :: 0 <= j < k < i && StateOf(tree, x.images[k]) == Postimage ==>
                    StateOf(tree, x.images[j]) == Postimage
        invariant seenPreimage <==> exists k :: 0 <= k < i && StateOf(tree, x.images[k]) == Preimage
      {
        var state := StateOf(tree, x.images[i]);
        if state == Preimage {
          seenPreimage := true;
        } else if state == Foreign || seenPreimage {
          return false;
        }
      }
      return true;
    }

    method CheckPublished(x: Receipt) returns (ok: bool)
      ensures ok <==> AllPublished(x, tree)
    {
      for i := 0 to |x.images|
        invariant forall k :: 0 <= k < i ==> StateOf(tree, x.images[k]) == Postimage
      {
        if StateOf(tree, x.images[i]) != Postimage {
          return false;
        }
      }
      return true;
    }

    /** advanceLocaleSwitch and advanceIndexRelocate, interrupted once `budget` writes are spent. Where it
        stops is reached by the steps of the transition system, and without a fault it stops early only
        where the system does. */
    method Advance(x: Receipt, budget: nat) returns (ok: bool, ghost stop: State)
      modifies this
      ensures Reaches(x, old(View(Admitting)), stop)
      ensures View(Idle) == stop.(proc := Idle)
      ensures ok ==> stop.proc == Idle && archived && !active && AllPublished(x, tree)
      ensures !ok && |x.images| + 2 <= budget ==> Tick(x, stop) == stop.(proc := Idle)
      ensures old(GuardWrong(x, tree) || HasAlien(x, tree) || OutOfOrder(x, tree)) ==>
                !ok && tree == old(tree) && archived == old(archived) && active == old(active)
      ensures archived && !old(archived) ==> EveryImage(x, tree) && !GuardWrong(x, tree)
    {
      ChecksMean(x, tree);
      ghost var start := View(Admitting);
      ok, stop := false, start;
      assert StepN(x, start, 0) == start;
      var guards := CheckGuards(x);
      var scan := ScanOrder(x);
      if !guards || !scan {
        return;
      }
      ReachesNext(x, start, stop, View(Publishing(0)));
      stop := View(Publishing(0));
      var i := 0;
      var left: nat := budget;
      while i < |x.images|
        invariant i <= |x.images| && budget <= left + i
        invariant Reaches(x, start, stop) && stop == View(Publishing(i))
        invariant archived == old(archived) && active == old(active)
      {
        if StateOf(tree, x.images[i]) != Postimage {
          guards := CheckGuards(x);
          if !guards || At(tree, x.images[i].path) != Regular(x.images[i].pre) || left == 0 {
            return;
          }
          left := left - 1;
          tree := tree[x.images[i].path := Regular(x.images[i].post)];
        }
        ReachesNext(x, start, stop, View(Publishing(i + 1)));
        i := i + 1;
        stop := View(Publishing(i));
      }
      ReachesNext(x, start, stop, View(Verifying));
      ok, stop := Finish(x, start, left);
    }

    /** The postimage proof and the archive. */
    method Finish(x: Receipt, ghost start: State, left: nat) returns (ok: bool, ghost stop: State)
      requires Reaches(x, start, View(Verifying))
      modifies this`active, this`archived
      ensures Reaches(x, start, stop)
      ensures View(Idle) == stop.(proc := Idle)
      ensures ok ==> stop.proc == Idle && archived && !active && AllPublished(x, tree)
      ensures !ok && 2 <= left ==> Tick(x, stop) == stop.(proc := Idle)
      ensures archived && !old(archived) ==> EveryImage(x, tree) && !GuardWrong(x, tree)
    {
      ChecksMean(x, tree);
      ok, stop := false, View(Verifying);
      var published := CheckPublished(x);
      var guards := CheckGuards(x);
      if !published || !guards {
        return;
      }
      ReachesNext(x, start, stop, View(Archiving));
      stop := View(Archiving);
      if left == 0 {
        return;
      }
      archived := true;
      ReachesNext(x, start, stop, View(Removing));
      stop := View(Removing);
      if left == 1 {
        return;
      }
      active := false;
      ReachesNext(x, start, stop, View(Idle));
      ok, stop := true, View(Idle);
    }
  }

  // -------------------------------------------------------------------------- planning

  datatype Rebound = Stale(path: string) | Rebound(files: map<string, Record>, advanced: bool)

  predicate DistinctPaths(images: seq<Image>) {
    forall i, j :: 0 <= i < j < |images| ==> images[i].path != images[j].path
  }

  /** What rebinding the first `n` images makes of the records: same paths, same roles, every record of
      another path unchanged, and every recorded image at its postimage. */
  ghost predicate Rebinds(files: map<string, Record>, images: seq<Image>, n: nat, files': map<string, Record>)
    requires n <= |images|
  {
    && files'.Keys == files.Keys
    && (forall p :: p in files ==> files'[p].role == files[p].role)
    && (forall p :: p in files && (forall i :: 0 <= i < n ==> images[i].path != p) ==> files'[p] == files[p])
    && (forall i :: 0 <= i < n && images[i].path in files ==> files'[images[i].path].of == images[i].post)
  }

  /** The Baseline loop of applyIndexRelocate, and with one image that of applyLocaleSwitch. It refuses
      exactly when a recorded image was already stale. */
  method RebindBaseline(files: map<string, Record>, images: seq<Image>) returns (r: Rebound)
    requires DistinctPaths(images)
    ensures r.Stale? <==>
              exists i :: 0 <= i < |images| && images[i].path in files && files[images[i].path].of != images[i].pre
    ensures r.Rebound? ==> Rebinds(files, images, |images|, r.files)
    ensures r.Rebound? ==> (r.advanced <==> exists i :: 0 <= i < |images| && images[i].path in files)
    ensures r.Rebound? && !r.advanced ==> r.files == files
  {
    var post, advanced := files, false;
    for i := 0 to |images|
      invariant Rebinds(files, images, i, post)
      invariant forall k :: 0 <= k < i && images[k].path in files ==> files[images[k].path].of == images[k].pre
      invariant advanced <==> exists k :: 0 <= k < i && images[k].path in files
      invariant !advanced ==> post == files
    {
      if images[i].path in files {
        var record := files[images[i].path];
        if record.of != images[i].pre {
          return Stale(images[i].path);
        }
        post := post[images[i].path := Record(record.role, images[i].post)];
        advanced := true;
      }
    }
    r := Rebound(post, advanced);
  }

  datatype Plan = Refused | Unchanged | Planned(images: seq<Image>)

  const BASELINE := ".aoci/baseline.json"

  /** The Baseline on disk: absent, or its records and time stamp. */
  datatype CurrentBaseline = NoBaseline | CurrentBaseline(files: map<string, Record>, updatedAt: string)

  /** A plan whose last image is the Baseline binds every recorded image at its postimage. */
  ghost predicate BindsImages(images: seq<Image>) {
    0 < |images| &&
    var last := images[|images| - 1];
    && last.post.BaselineFile? && last.pre.BaselineFile? && last.pre != last.post
    && Rebinds(last.pre.files, images[..|images| - 1], |images| - 1, last.post.files)
  }

  /** The Baseline records one of these images. */
  predicate RecordsAny(current: CurrentBaseline, images: seq<Image>) {
    current.CurrentBaseline? && exists i :: 0 <= i < |images| && images[i].path in current.files
  }

  /** The Baseline records one of these images with other bytes than its preimage. */
  predicate RecordsStale(current: CurrentBaseline, images: seq<Image>) {
    current.CurrentBaseline? &&
    exists i :: 0 <= i < |images| && images[i].path in current.files && current.files[images[i].path].of != images[i].pre
  }

  /** The image that replaces the Baseline on disk, stamped `now`. */
  ghost predicate AdvancesBaseline(image: Image, current: CurrentBaseline, now: string) {
    && current.CurrentBaseline? && image.path == BASELINE
    && image.pre == BaselineFile(current.files, current.updatedAt)
    && image.post.BaselineFile? && image.post.updatedAt == now
  }

  /** How applyLocaleSwitch chooses its images: Root and configuration always, the Baseline only when Root
      changes and is recorded. */
  method PlanLocaleSwitch(root: Image, config: Image, current: CurrentBaseline, now: string) returns (r: Plan)
    requires root.path != config.path && BASELINE !in {root.path, config.path}
    ensures r.Unchanged? <==> root.pre == root.post && config.pre == config.post
    ensures r.Refused? <==> root.pre != root.post && RecordsStale(current, [root])
    ensures r.Planned? ==> 2 <= |r.images| <= 3 && r.images[..2] == [root, config] && DistinctPaths(r.images)
    ensures r.Planned? ==> (|r.images| == 3 <==> root.pre != root.post && RecordsAny(current, [root]))
    ensures r.Planned? && |r.images| == 3 ==> AdvancesBaseline(r.images[2], current, now) && BindsImages([root, r.images[2]])
    ensures r.Planned? ==> (ChangesFirst(r.images) <==> root.pre == root.post || config.pre != config.post)
  {
    if root.pre == root.post && config.pre == config.post {
      return Unchanged;
    }
    var images := [root, config];
    if current.CurrentBaseline? && root.pre != root.post {
      var rebound := RebindBaseline(current.files, [root]);
      if rebound.Stale? {
        return Refused;
      }
      if rebound.advanced {
        var post := BaselineFile(rebound.files, now);
        var image := Image(BASELINE, BaselineFile(current.files, current.updatedAt), post);
        assert [root][0].path in current.files;
        assert [root, image][..1] == [root];
        images := images + [image];
      }
    }
    r := Planned(images);
    assert root.pre != root.post && config.pre == config.post ==> images[0].pre != images[0].post && images[1].pre == images[1].post;
  }

  /** How applyIndexRelocate chooses its images: the rewritten assets, then the Baseline when it records
      one of them. Such a plan can always be carried out. */
  method PlanRelocate(rewritten: seq<Image>, current: CurrentBaseline, now: string) returns (r: Plan)
    requires |rewritten| <= 2 && DistinctPaths(rewritten)
    requires forall i :: 0 <= i < |rewritten| ==> rewritten[i].path != BASELINE && rewritten[i].pre != rewritten[i].post
    ensures r.Unchanged? <==> rewritten == []
    ensures r.Refused? <==> RecordsStale(current, rewritten)
    ensures r.Planned? ==> DistinctPaths(r.images) && ChangesFirst(r.images) && 1 <= |r.images| <= 3
    ensures r.Planned? && !RecordsAny(current, rewritten) ==> r.images == rewritten
    ensures r.Planned? && RecordsAny(current, rewritten) ==>
              && |r.images| == |rewritten| + 1 && r.images[..|rewritten|] == rewritten
              && AdvancesBaseline(r.images[|rewritten|], current, now) && BindsImages(r.images)
  {
    if rewritten == [] {
      return Unchanged;
    }
    var images := rewritten;
    if current.CurrentBaseline? {
      var rebound := RebindBaseline(current.files, rewritten);
      if rebound.Stale? {
        return Refused;
      }
      if rebound.advanced {
        var image := Image(BASELINE, BaselineFile(current.files, current.updatedAt), BaselineFile(rebound.files, now));
        images := rewritten + [image];
        assert images[..|rewritten|] == rewritten && images[..|images| - 1] == rewritten;
      }
    }
    r := Planned(images);
  }

  /** The Baseline image rebinds image `i`: always in a relocation, and the Root image of a Locale switch. */
  ghost predicate BaselineRebinds(images: seq<Image>, i: nat)
    requires i + 1 < |images|
  {
    BindsImages(images) || (i == 0 && BindsImages([images[0], images[|images| - 1]]))
  }

  /** In every state of an interrupted or finished transaction, a Baseline at its postimage records, for
      every image it rebinds, exactly the bytes that image holds on disk, in the role it had. */
  lemma RecordedBytesAreOnDisk(x: Receipt, s: State, run: seq<Action>, i: nat)
    requires Fresh(x, s) && QuietRun(run) && i + 1 < |x.images| && BaselineRebinds(x.images, i)
    requires var last := x.images[|x.images| - 1];
             && At(Exec(x, s, run).tree, last.path) == Regular(last.post)
             && x.images[i].path in last.pre.files
    ensures var last := x.images[|x.images| - 1];
            && x.images[i].path in last.post.files
            && At(Exec(x, s, run).tree, x.images[i].path) == Regular(last.post.files[x.images[i].path].of)
            && last.post.files[x.images[i].path].role == last.pre.files[x.images[i].path].role
  {
    LastImageMeansAll(x, s, run);
    var last := x.images[|x.images| - 1];
    var bound := if BindsImages(x.images) then x.images[..|x.images| - 1] else [x.images[i]];
    assert [x.images[i], last][..1] == [x.images[i]];
    assert bound[if BindsImages(x.images) then i else 0].path in last.pre.files;
  }

  /** The Locale switch of a repository whose configuration already names the target while its Root does
      not: the Intent is saved and then never moves. */
  lemma ConfigurationAheadIsStuck(x: Receipt, s: State, run: seq<Action>)
    requires Fresh(x, s) && QuietRun(run) && 2 <= |x.images|
    requires x.images[0].pre != x.images[0].post && x.images[1].pre == x.images[1].post
    ensures Exec(x, s, run).tree == s.tree && Exec(x, s, run).active && !Exec(x, s, run).archived
  {
    assert !ChangesFirst(x.images);
    UnchangedAfterChangeIsStuck(x, s, run);
  }
}
