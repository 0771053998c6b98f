/** advanceTransaction, Rollback, the status inspection and Prepare's write order as programs, and the
    proof that each of them performs the steps of the transition system. */
module BootstrapProgram {
  import opened Contents
  import opened BootstrapModel
  import opened BootstrapSafety
  import opened BootstrapRecovery
  import opened BootstrapRefusals

  /** The transition system itself stops at `s`, without another write. */
  ghost predicate Stops(env: Plan, s: State) {
    Tick(env, s) == s.(proc := Idle)
  }

  // ------------------------------------------------------------------ the programs

  /** The order rule on the first `n` items. */
  predicate OrderlyTo(env: Plan, seen: Disk, n: nat)
    requires n <= |env.items|
  {
    && (forall k :: 0 <= k < n ==> StateOf(env, seen, k) in {Preimage, Postimage})
    && (forall j, k :: 0 <= j < k < n && StateOf(env, seen, k) == Postimage ==> StateOf(env, seen, j) == Postimage)
  }

  predicate StagedTo(env: Plan, area: StagingArea, n: nat)
    requires n <= |env.items|
  {
    forall i :: 0 <= i < n ==> StagedAt(area, i) == File(env.items[i].post)
  }

  /** The files of one transaction. */
  class Repository {
    var formal: Disk
    var staging: StagingArea
    var intent: bool
    var archive: bool
    var completion: bool
    var rollback: Option<seq<Path>>
    var recovered: map<Slot, Bytes>

    ghost function View(proc: Process): State
      reads this
    {
      State(formal, staging, intent, archive, completion, rollback, recovered, proc)
    }

    /** inspectEnvelopeState: the loop with its seenPreimage flag decides exactly the declared order. */
    method Inspect(env: Plan, includeStaging: bool) returns (conflict: bool, activated: bool, complete: bool)
      ensures conflict <==> !(Orderly(env, formal) && (includeStaging ==> StagingIntact(env, staging)))
      ensures activated <==> Activated(env, formal)
      ensures complete <==> AllPostimages(env, formal)
    {
      conflict := false;
      var seenPreimage := false;
      var postCount := 0;
      for i := 0 to |env.items|
        invariant !conflict <==> OrderlyTo(env, formal, i) && (includeStaging ==> StagedTo(env, staging, i))
        invariant OrderlyTo(env, formal, i) ==> (seenPreimage <==> postCount != i)
        invariant seenPreimage ==> exists k :: 0 <= k < i && StateOf(env, formal, k) == Preimage
        invariant 0 <= postCount <= i
        invariant postCount == i <==> forall k :: 0 <= k < i ==> StateOf(env, formal, k) == Postimage
      {
        var state := StateOf(env, formal, i);
        if includeStaging && StagedAt(staging, i) != File(env.items[i].post) {
          conflict := true;
        }
        if state == Postimage {
          postCount := postCount + 1;
          if seenPreimage {
            conflict := true;
          }
        } else if state == Preimage {
          seenPreimage := true;
        } else {
          conflict := true;
        }
      }
      activated := StateOf(env, formal, RootIndex(env)) == Postimage;
      complete := postCount == |env.items|;
    }

    /** advanceTransaction, interrupted by a fault once `budget` publications and receipts are spent.
        Wherever it stops, the disk is one the steps of the transition system reach; without a fault it
        succeeds unless the system itself stops there. */
    method AdvanceTransaction(env: Plan, budget: nat) returns (ok: bool, ghost stop: State)
      modifies this
      ensures Reaches(env, old(View(Inspecting(0))), stop)
      ensures View(Idle) == stop.(proc := Idle)
      ensures ok ==> stop.proc == Idle && completion && archive && !intent
      ensures !ok && |env.items| + 3 <= budget ==> Stops(env, stop)
      ensures old(Conflicted(env, formal, staging)) ==> !ok && View(Idle) == old(View(Idle))
      ensures completion && !old(completion) ==> EveryPost(env, formal)
      ensures staging == old(staging) && recovered == old(recovered) && rollback == old(rollback)
    {
      ghost var start := View(Inspecting(0));
      ok, stop := false, start;
      ReachesItself(env, start);
      var conflict, _, _ := Inspect(env, true);
      ConflictMeans(env, formal, staging);
      if !conflict {
        ReachesNext(env, start, stop, View(Advancing(formal, 0)));
        ok, stop := AdvanceFrom(env, start, budget);
      }
    }

    /** The loop and the end of advanceTransaction, on the status of its first inspection. */
    method AdvanceFrom(env: Plan, ghost start: State, budget: nat) returns (ok: bool, ghost stop: State)
      requires Reaches(env, start, View(Advancing(formal, 0)))
      modifies this
      ensures Reaches(env, start, stop)
      ensures View(Idle) == stop.(proc := Idle)
      ensures ok ==> stop.proc == Idle && completion && archive && !intent
      ensures !ok && |env.items| + 3 <= budget ==> Stops(env, stop)
      ensures completion && !old(completion) ==> EveryPost(env, formal)
      ensures staging == old(staging) && recovered == old(recovered) && rollback == old(rollback)
    {
      ok := false;
      var seen, i, go := formal, 0, true;
      var left: nat := budget;
      stop := View(Advancing(seen, 0));
      while i < |env.items|
        invariant i <= |env.items| && budget <= left + i
        invariant Reaches(env, start, stop)
        invariant stop == View(if i < |env.items| then Advancing(seen, i) else Verifying)
        invariant staging == old(staging) && recovered == old(recovered) && rollback == old(rollback)
        invariant completion == old(completion)
      {
        go, seen, left, stop := PublishOne(env, start, seen, i, left);
        if !go {
          return;
        }
        i := i + 1;
      }
      ok, stop := Complete(env, start, left);
    }

    /** One round of the publication loop: skip a postimage, publish over a preimage and inspect again. */
    method PublishOne(env: Plan, ghost start: State, seen: Disk, i: nat, left: nat)
      returns (go: bool, seen': Disk, left': nat, ghost stop: State)
      requires i < |env.items| && Reaches(env, start, View(Advancing(seen, i)))
      modifies this`formal
      ensures Reaches(env, start, stop)
      ensures go ==> stop == View(if i + 1 < |env.items| then Advancing(seen', i + 1) else Verifying)
      ensures go ==> left <= left' + 1
      ensures !go ==> View(Idle) == stop.(proc := Idle) && (0 < left ==> Stops(env, stop))
    {
      go, seen', left', stop := false, seen, left, View(Advancing(seen, i));
      var state := StateOf(env, seen, i);
      if state == Postimage {
        ghost var next := View(if i + 1 < |env.items| then Advancing(seen, i + 1) else Verifying);
        ReachesNext(env, start, stop, next);
        go, stop := true, next;
      } else if state == Preimage && 0 < left {
        left' := left - 1;
        go, seen', stop := PublishNext(env, start, seen, i);
      }
    }

    method PublishNext(env: Plan, ghost start: State, seen: Disk, i: nat) returns (go: bool, seen': Disk, ghost stop: State)
      requires i < |env.items| && Reaches(env, start, View(Advancing(seen, i))) && StateOf(env, seen, i) == Preimage
      modifies this`formal
      ensures Reaches(env, start, stop)
      ensures go ==> stop == View(if i + 1 < |env.items| then Advancing(seen', i + 1) else Verifying)
      ensures !go ==> View(Idle) == stop.(proc := Idle) && Stops(env, stop)
    {
      go, seen', stop := false, seen, View(Advancing(seen, i));
      var written := PublishOver(env, i);
      if written {
        ReachesNext(env, start, stop, View(if i + 1 < |env.items| then Inspecting(i + 1) else Verifying));
        go, seen', stop := InspectAgain(env, start, i);
      }
    }

    /** The staged bytes go over the preimage by compare-and-swap, or onto an absent path. */
    method PublishOver(env: Plan, i: nat) returns (written: bool)
      requires i < |env.items|
      modifies this`formal
      ensures written <==> Publish(env, old(formal), staging, i).Some?
      ensures formal == if written then Publish(env, old(formal), staging, i).value else old(formal)
    {
      var target := env.items[i];
      var data := ReadStaged(env, staging, i);
      if data.None? {
        return false;
      }
      var node;
      if target.pre.Some? {
        node := WriteCAS(At(formal, target.path), data.value, Sha256(target.pre.value));
      } else {
        node := CreateCAS(At(formal, target.path), data.value);
      }
      if node.None? {
        return false;
      }
      formal := formal[target.path := node.value];
      return true;
    }

    method InspectAgain(env: Plan, ghost start: State, i: nat) returns (go: bool, seen: Disk, ghost stop: State)
      requires i < |env.items|
      requires Reaches(env, start, View(if i + 1 < |env.items| then Inspecting(i + 1) else Verifying))
      ensures Reaches(env, start, stop)
      ensures go ==> stop == View(if i + 1 < |env.items| then Advancing(seen, i + 1) else Verifying)
      ensures !go ==> View(Idle) == stop.(proc := Idle) && Stops(env, stop)
    {
      go, seen, stop := true, formal, View(Verifying);
      if i + 1 < |env.items| {
        stop := View(Inspecting(i + 1));
        var conflict, _, _ := Inspect(env, true);
        go := !conflict;
        if go {
          ReachesNext(env, start, stop, View(Advancing(formal, i + 1)));
          stop := View(Advancing(formal, i + 1));
        }
      }
    }

    /** The end of advanceTransaction: verification, completion receipt, archive. */
    method Complete(env: Plan, ghost start: State, left: nat) returns (ok: bool, ghost stop: State)
      requires Reaches(env, start, View(Verifying))
      modifies this
      ensures Reaches(env, start, stop)
      ensures View(Idle) == stop.(proc := Idle)
      ensures ok ==> stop.proc == Idle && completion && archive && !intent
      ensures !ok && 3 <= left ==> Stops(env, stop)
      ensures completion && !old(completion) ==> EveryPost(env, formal)
      ensures formal == old(formal) && staging == old(staging) && recovered == old(recovered) && rollback == old(rollback)
    {
      ok, stop := false, View(Verifying);
      var _, _, complete := Inspect(env, true);
      CompleteMeans(env, formal);
      if complete {
        ReachesNext(env, start, stop, View(Completing));
        ok, stop := WriteCompletion(env, start, left);
      }
    }

    /** The completion receipt, then the archive. */
    method WriteCompletion(env: Plan, ghost start: State, left: nat) returns (ok: bool, ghost stop: State)
      requires Reaches(env, start, View(Completing))
      modifies this`completion, this`archive, this`intent
      ensures Reaches(env, start, stop)
      ensures View(Idle) == stop.(proc := Idle)
      ensures ok ==> stop.proc == Idle && completion && archive && !intent
      ensures !ok ==> left < 3
    {
      ok, stop := false, View(Completing);
      if left == 0 {
        return;
      }
      completion := true;
      ReachesNext(env, start, stop, View(Archiving));
      stop := View(Archiving);
      if left == 1 {
        return;
      }
      ok, stop := Archive(env, start, left - 2);
    }

    /** archiveRecovery: the archive is created before the active intent is removed. */
    method Archive(env: Plan, ghost start: State, left: nat) returns (ok: bool, ghost stop: State)
      requires Reaches(env, start, View(Archiving))
      modifies this`archive, this`intent
      ensures Reaches(env, start, stop)
      ensures View(Idle) == stop.(proc := Idle)
      ensures ok ==> stop.proc == Idle && archive && !intent
      ensures !ok <==> left == 0
      ensures !ok ==> stop.proc == Removing && archive && intent == old(intent)
    {
      ok, stop := false, View(Archiving);
      archive := true;
      ReachesNext(env, start, stop, View(Removing));
      stop := View(Removing);
      if left == 0 {
        return;
      }
      intent := false;
      ReachesNext(env, start, stop, View(Idle));
      ok, stop := true, View(Idle);
    }

    /** Rollback after its admission checks, interrupted once `budget` moves and receipts are spent. */
    method RollBack(env: Plan, budget: nat) returns (ok: bool, ghost stop: State)
      modifies this
      ensures Reaches(env, old(View(RollbackInspecting)), stop)
      ensures View(Idle) == stop.(proc := Idle)
      ensures ok ==> stop.proc == Idle && archive && !intent && rollback.Some?
      ensures !ok && 8 <= budget ==> Stops(env, stop)
      ensures old(Conflicted(env, formal, staging)) ==> !ok && View(Idle) == old(View(Idle))
      ensures ok || rollback != old(rollback) ==> EveryPre(env, formal)
      ensures staging == old(staging) && completion == old(completion)
    {
      ghost var start := View(RollbackInspecting);
      ok, stop := false, start;
      ReachesItself(env, start);
      var conflict, activated, _ := Inspect(env, true);
      ConflictMeans(env, formal, staging);
      if !conflict {
        ReachesNext(env, start, stop, View(RollingBack(formal, 0, [])));
        ok, stop := RollFrom(env, start, activated, budget);
      }
    }

    /** The loop and the end of Rollback, on the status it read at the start. */
    method RollFrom(env: Plan, ghost start: State, activated: bool, budget: nat) returns (ok: bool, ghost stop: State)
      requires Reaches(env, start, View(RollingBack(formal, 0, []))) && activated == Activated(env, formal)
      modifies this
      ensures Reaches(env, start, stop)
      ensures View(Idle) == stop.(proc := Idle)
      ensures ok ==> stop.proc == Idle && archive && !intent && rollback.Some?
      ensures !ok && 8 <= budget ==> Stops(env, stop)
      ensures ok || rollback != old(rollback) ==> EveryPre(env, formal)
      ensures staging == old(staging) && completion == old(completion)
    {
      ok := false;
      var seen, moved, i, go := formal, [], 0, true;
      var left: nat := budget;
      var order := RollbackOrder(activated);
      stop := View(RollingBack(seen, 0, []));
      while i < |order|
        invariant i <= |order| && order == RollbackOrder(Activated(env, seen)) && budget <= left + i
        invariant Reaches(env, start, stop) && stop == View(RollingBack(seen, i, moved))
        invariant staging == old(staging) && completion == old(completion) && rollback == old(rollback)
      {
        go, left, moved, stop := UndoOne(env, start, seen, i, moved, order, left);
        if !go {
          return;
        }
        i := i + 1;
      }
      ReachesNext(env, start, stop, View(RollbackVerifying(moved)));
      ok, stop := FinishRollback(env, start, moved, left);
    }

    /** One round of Rollback's loop. */
    method UndoOne(env: Plan, ghost start: State, seen: Disk, i: nat, moved: seq<Path>, order: seq<Path>, left: nat)
      returns (go: bool, left': nat, moved': seq<Path>, ghost stop: State)
      requires order == RollbackOrder(Activated(env, seen)) && i < |order|
      requires Reaches(env, start, View(RollingBack(seen, i, moved)))
      modifies this`formal, this`recovered
      ensures Reaches(env, start, stop)
      ensures go ==> stop == View(RollingBack(seen, i + 1, moved')) && left <= left' + 1
      ensures !go ==> View(Idle) == stop.(proc := Idle) && (0 < left ==> Stops(env, stop))
    {
      go, left', moved', stop := false, left, moved, View(RollingBack(seen, i, moved));
      if left == 0 {
        return;
      }
      WalkedRound(env, stop, order[i]);
      var done, changed := PutBack(env, seen, i, order[i]);
      if !done {
        return;
      }
      if changed {
        left', moved' := left - 1, moved + [order[i]];
      }
      ReachesNext(env, start, stop, View(RollingBack(seen, i + 1, moved')));
      go, stop := true, View(RollingBack(seen, i + 1, moved'));
    }

    /** declaredTargetStatus: the position of a path among the targets and the Baseline, if it is one. */
    method DeclaredTarget(env: Plan, p: Path) returns (k: nat)
      ensures k == Find(env, p)
    {
      k := 0;
      while k < |env.items| && env.items[k].path != p
        invariant k <= |env.items| && forall j :: 0 <= j < k ==> env.items[j].path != p
      {
        k := k + 1;
      }
    }

    /** Skip what was not published, restore the preimage bytes, or move the file to its recovered slot; each
        write only over the digest the status named. */
    method PutBack(env: Plan, seen: Disk, i: nat, p: Path) returns (done: bool, changed: bool)
      modifies this`formal, this`recovered
      ensures var u := Undo(env, old(formal), old(recovered), seen, i, p);
              && (done <==> u.Some?)
              && (if done then u.value == Undone(formal, recovered, changed)
                  else formal == old(formal) && recovered == old(recovered))
    {
      done, changed := false, false;
      var k := DeclaredTarget(env, p);
      if k == |env.items| || StateOf(env, seen, k) == Preimage {
        return true, false;
      }
      if StateOf(env, seen, k) != Postimage {
        return;
      }
      var target, expected := env.items[k], Sha256(env.items[k].post);
      if target.pre.Some? {
        var node := WriteCAS(At(formal, p), target.pre.value, expected);
        if node.Some? {
          formal := formal[p := node.value];
          return true, true;
        }
      } else {
        var node := At(formal, p);
        if node.File? && Sha256(node.data) == expected && Slot(i, p) !in recovered {
          formal, recovered := formal[p := Absent], recovered[Slot(i, p) := node.data];
          return true, true;
        }
      }
    }

    /** The end of Rollback: every target must be back before the receipt is written. */
    method FinishRollback(env: Plan, ghost start: State, moved: seq<Path>, left: nat) returns (ok: bool, ghost stop: State)
      requires Reaches(env, start, View(RollbackVerifying(moved)))
      modifies this`rollback, this`archive, this`intent
      ensures Reaches(env, start, stop)
      ensures View(Idle) == stop.(proc := Idle)
      ensures ok ==> stop.proc == Idle && archive && !intent && rollback.Some?
      ensures !ok && 3 <= left ==> Stops(env, stop)
      ensures ok || rollback != old(rollback) ==> EveryPre(env, formal)
    {
      ok, stop := false, View(RollbackVerifying(moved));
      var allBack := AllBack(env);
      RestoredMeans(env, formal);
      if !allBack {
        return;
      }
      ReachesNext(env, start, stop, View(WritingReceipt(moved)));
      ok, stop := WriteReceipt(env, start, moved, left);
    }

    /** The rollback receipt names what this run moved; a different receipt that exists already stops it. The
        fault may fall before the receipt, between the receipt and the archive, and before the intent goes. */
    method WriteReceipt(env: Plan, ghost start: State, moved: seq<Path>, left: nat) returns (ok: bool, ghost stop: State)
      requires Reaches(env, start, View(WritingReceipt(moved)))
      modifies this`rollback, this`archive, this`intent
      ensures Reaches(env, start, stop)
      ensures View(Idle) == stop.(proc := Idle)
      ensures ok ==> stop.proc == Idle && archive && !intent && rollback == Some(moved)
      ensures !ok && 3 <= left ==> Stops(env, stop)
      ensures left == 1 && old(rollback).None? ==> stop.proc == Archiving && rollback == Some(moved) && archive == old(archive)
      ensures left == 2 && old(rollback).None? ==> stop.proc == Removing && rollback == Some(moved) && archive && intent == old(intent)
    {
      ok, stop := false, View(WritingReceipt(moved));
      if left == 0 || (rollback.Some? && rollback.value != moved) {
        return;
      }
      rollback := Some(moved);
      ReachesNext(env, start, stop, View(Archiving));
      stop := View(Archiving);
      if left == 1 {
        return;
      }
      ok, stop := Archive(env, start, left - 2);
    }

    /** The loop over the targets after the last move. */
    method AllBack(env: Plan) returns (r: bool)
      ensures r <==> AllPreimages(env, formal)
    {
      for i := 0 to |env.items|
        invariant forall k :: 0 <= k < i ==> StateOf(env, formal, k) == Preimage
      {
        if StateOf(env, formal, i) != Preimage {
          return false;
        }
      }
      return true;
    }
  }

  // ----------------------------------------------------------------------- prepare

  datatype Prepared = Refused | Prepared(env: Envelope)

  /** requireAbsentRegularBoundary, and for Root also any official skeleton. */
  predicate Ready(disk: Disk, official: Bytes -> bool, p: Path) {
    At(disk, p) == Absent || (p == Root && At(disk, p).File? && official(At(disk, p).data))
  }

  function WriteOrder(assets: map<Path, Bytes>): (order: seq<Path>)
    requires Meta in assets && Root in assets && Baseline in assets
    ensures 3 <= |order| <= 5
    ensures forall k :: 0 <= k < |order| ==> order[k] in assets
  {
    if Code in assets && Database in assets then [Meta, Code, Database, Root, Baseline]
    else if Code in assets then [Meta, Code, Root, Baseline]
    else if Database in assets then [Meta, Database, Root, Baseline]
    else [Meta, Root, Baseline]
  }

  /** The write order leaves no asset out. */
  lemma OrderCovers(assets: map<Path, Bytes>, p: Path)
    requires Meta in assets && Root in assets && Baseline in assets && p in assets
    ensures exists k :: 0 <= k < |WriteOrder(assets)| && WriteOrder(assets)[k] == p
  {
    var order := WriteOrder(assets);
    match p
    case Meta => assert order[0] == p;
    case Code => assert order[1] == p;
    case Database => assert order[|order| - 3] == p;
    case Root => assert order[|order| - 2] == p;
    case Baseline => assert order[|order| - 1] == p;
  }

  /** The items of one disk, in write order. */
  predicate Itemizes(assets: map<Path, Bytes>, disk: Disk, order: seq<Path>, items: seq<Target>) {
    && |items| <= |order|
    && forall k :: 0 <= k < |items| ==>
         && order[k] in assets
         && items[k].path == order[k] && items[k].post == assets[order[k]]
         && At(disk, order[k]) == PreNode(items[k])
         && (order[k] != Root ==> items[k].pre.None?)
  }

  lemma ItemizedIsValid(assets: map<Path, Bytes>, disk: Disk, items: seq<Target>)
    requires Meta in assets && Root in assets && Baseline in assets
    requires Itemizes(assets, disk, WriteOrder(assets), items) && |items| == |WriteOrder(assets)|
    ensures ValidEnvelope(Envelope(items)) && ReplaysPrepare(Envelope(items), disk)
  {
  }

  /** Prepare's collection of the asset ids in write order. */
  method OrderAssets(assets: map<Path, Bytes>) returns (order: seq<Path>)
    requires Meta in assets && Root in assets && Baseline in assets
    ensures order == WriteOrder(assets)
  {
    order := [Meta];
    var optional := [Code, Database];
    for i := 0 to 2
      invariant i == 0 ==> order == [Meta]
      invariant i == 1 ==> order == if Code in assets then [Meta, Code] else [Meta]
      invariant i == 2 ==> order + [Root, Baseline] == WriteOrder(assets)
    {
      if optional[i] in assets {
        order := order + [optional[i]];
      }
    }
    order := order + [Root, Baseline];
  }

  /** Prepare's construction of the envelope from the candidate assets (the Baseline bytes come with
      them). It accepts exactly when the required assets exist and every path is ready, and then the
      envelope is a valid one for this disk, with one item for each asset. */
  method Prepare(assets: map<Path, Bytes>, disk: Disk, official: Bytes -> bool) returns (r: Prepared)
    ensures r.Prepared? <==>
              && Meta in assets && Root in assets && Baseline in assets
              && forall p :: p in assets ==> Ready(disk, official, p)
    ensures r.Prepared? ==> ValidEnvelope(r.env) && ReplaysPrepare(r.env, disk)
    ensures Meta !in assets || Root !in assets || Baseline !in assets ==> r.Refused?
    ensures forall p :: p in assets && p != Root && At(disk, p) != Absent ==> r.Refused?
    ensures Root in assets && At(disk, Root) == WrongType ==> r.Refused?
    ensures Root in assets && At(disk, Root).File? && !official(At(disk, Root).data) ==> r.Refused?
    ensures (&& Meta in assets && Root in assets && Baseline in assets
             && (forall p :: p in assets && p != Root ==> At(disk, p) == Absent)
             && (At(disk, Root) == Absent || (At(disk, Root).File? && official(At(disk, Root).data))))
            ==> r.Prepared?
    ensures r.Prepared? ==>
              r.env.items[|r.env.items| - 2] ==
                Target(Root, if At(disk, Root) == Absent then None else Some(At(disk, Root).data), assets[Root])
    ensures r.Prepared? ==>
              && |r.env.items| == |WriteOrder(assets)|
              && Itemizes(assets, disk, WriteOrder(assets), r.env.items)
  {
    if Meta !in assets || Root !in assets || Baseline !in assets {
      return Refused;
    }
    var order := OrderAssets(assets);
    var items: seq<Target> := [];
    for i := 0 to |order|
      invariant |items| == i && Itemizes(assets, disk, order, items)
      invariant forall k :: 0 <= k < i ==> Ready(disk, official, order[k])
    {
      var p := order[i];
      if !Ready(disk, official, p) {
        return Refused;
      }
      items := items + [Target(p, if At(disk, p) == Absent then None else Some(At(disk, p).data), assets[p])];
    }
    ItemizedIsValid(assets, disk, items);
    forall p | p in assets
      ensures Ready(disk, official, p)
    {
      OrderCovers(assets, p);
    }
    r := Prepared(Envelope(items));
  }
}
