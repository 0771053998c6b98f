/** The Bootstrap transaction of internal/bootstrapapply as a transition system.

    One envelope is fixed. A state holds everything the transaction leaves on disk, plus the control
    point of the one process that holds the index lock. Every action performs at most one atomic
    filesystem primitive, so a `Crash` between any two of them is an interruption at any point. */
module BootstrapModel {
  import opened Contents

  // ---------------------------------------------------------------- envelope

  /** aoci.meta.txt, aoci.code.txt, aoci.database.txt, aoci.txt and .aoci/baseline.json. */
  datatype Path = Meta | Code | Database | Root | Baseline

  /** One formal postimage; `pre` is `None` when the path must be absent before publication. */
  datatype Target = Target(path: Path, pre: Option<Bytes>, post: Bytes)

  /** The targets in write order, then the Baseline. */
  datatype Envelope = Envelope(items: seq<Target>)

  /** What `Prepare` builds and `validateEnvelope` accepts: Meta, the object Volumes that exist, Root,
      then the Baseline, and only Root may replace existing bytes. */
  predicate ValidEnvelope(env: Envelope) {
    var n := |env.items|;
    && 3 <= n <= 5
    && env.items[0].path == Meta
    && env.items[n - 2].path == Root
    && env.items[n - 1].path == Baseline
    && (n == 4 ==> env.items[1].path in {Code, Database})
    && (n == 5 ==> env.items[1].path == Code && env.items[2].path == Database)
    && forall k :: 0 <= k < n && k != n - 2 ==> env.items[k].pre.None?
  }

  type Plan = env: Envelope | ValidEnvelope(env)
    witness Envelope([Target(Meta, None, []), Target(Root, None, []), Target(Baseline, None, [])])

  function RootIndex(env: Plan): (k: nat)
    ensures k + 2 == |env.items| && env.items[k].path == Root
  {
    |env.items| - 2
  }

  // ------------------------------------------------------------------- state

  /** A file name in the recovered directory: the position in the rollback order and the base name. */
  datatype Slot = Slot(index: nat, path: Path)

  datatype DiskState = Preimage | Postimage | Unknown | WrongTyped

  /** The formal paths; a path that is not a key is absent. */
  type Disk = map<Path, Node>

  /** The staging directory, by position in the write order. */
  type StagingArea = map<nat, Node>

  /** Where the process that holds the lock is; `Idle` is: no process holds it. `seen` is what the
      last inspection read, from which the status it acts on is computed. */
  datatype Process =
    | Idle
    | Preparing
    | Staging(next: nat)
    | SavingIntent
    | Inspecting(next: nat)
    | Advancing(seen: Disk, next: nat)
    | Verifying
    | Completing
    | Archiving
    | Removing
    | RollbackInspecting
    | RollingBack(seen: Disk, next: nat, moved: seq<Path>)
    | RollbackVerifying(moved: seq<Path>)
    | WritingReceipt(moved: seq<Path>)

  datatype State = State(
    formal: Disk,
    staging: StagingArea,
    intent: bool,
    archive: bool,
    completion: bool,
    rollback: Option<seq<Path>>,
    recovered: map<Slot, Bytes>,
    proc: Process)

  function At(d: Disk, p: Path): Node {
    if p in d then d[p] else Absent
  }

  function StagedAt(area: StagingArea, i: nat): Node {
    if i in area then area[i] else Absent
  }

  /** The node a path has before publication. */
  function PreNode(t: Target): Node {
    if t.pre.Some? then File(t.pre.value) else Absent
  }

  // ---------------------------------------------------------- classification

  /** classifyFormalPath: the postimage is tested before the preimage, and a missing path is the preimage. */
  function Classify(node: Node, t: Target): DiskState {
    match node
    case Absent => Preimage
    case WrongType => WrongTyped
    case File(data) =>
      if Sha256(data) == Sha256(t.post) then Postimage
      else if t.pre.Some? && Sha256(data) == Sha256(t.pre.value) then Preimage
      else Unknown
  }

  /** The disk state of one item in what an inspection read. */
  function StateOf(env: Plan, seen: Disk, k: nat): DiskState
    requires k < |env.items|
  {
    Classify(At(seen, env.items[k].path), env.items[k])
  }

  predicate StagingIntact(env: Plan, area: StagingArea) {
    forall i :: 0 <= i < |env.items| ==> StagedAt(area, i) == File(env.items[i].post)
  }

  /** The conflict rule of inspectEnvelopeState on the formal paths: every item is at its preimage or
      postimage, and no postimage follows a preimage. */
  predicate Orderly(env: Plan, seen: Disk) {
    && (forall k :: 0 <= k < |env.items| ==> StateOf(env, seen, k) in {Preimage, Postimage})
    && (forall j, k :: 0 <= j < k < |env.items| && StateOf(env, seen, k) == Postimage ==>
          StateOf(env, seen, j) == Postimage)
  }

  // ------------------------------------------------- filesystem primitives

  /** AtomicCreateCAS: publishes only on an absent path. */
  function CreateCAS(node: Node, data: Bytes): Option<Node> {
    if node.Absent? then Some(File(data)) else None
  }

  /** AtomicWriteCAS: replaces only the bytes with the expected digest. */
  function WriteCAS(node: Node, data: Bytes, expected: Digest): Option<Node> {
    if node.File? && Sha256(node.data) == expected then Some(File(data)) else None
  }

  // ------------------------------------------------------------ forward path

  /** readStagedPostimage: the staged bytes, only when they have the digest the intent binds. */
  function ReadStaged(env: Plan, area: StagingArea, i: nat): Option<Bytes>
    requires i < |env.items|
  {
    var node := StagedAt(area, i);
    if node.File? && Sha256(node.data) == Sha256(env.items[i].post) then Some(node.data) else None
  }

  /** One publication attempt of advanceTransaction; `None` when the primitive refuses. */
  function Publish(env: Plan, d: Disk, area: StagingArea, i: nat): Option<Disk>
    requires i < |env.items|
  {
    var t := env.items[i];
    var data := ReadStaged(env, area, i);
    if data.None? then None else
    var node :=
      if t.pre.Some? then WriteCAS(At(d, t.path), data.value, Sha256(t.pre.value))
      else CreateCAS(At(d, t.path), data.value);
    if node.None? then None else Some(d[t.path := node.value])
  }

  predicate ReplaysPrepare(env: Plan, d: Disk) {
    forall k :: 0 <= k < |env.items| ==> At(d, env.items[k].path) == PreNode(env.items[k])
  }

  predicate AllPostimages(env: Plan, seen: Disk) {
    forall k :: 0 <= k < |env.items| ==> StateOf(env, seen, k) == Postimage
  }

  predicate AllPreimages(env: Plan, seen: Disk) {
    forall k :: 0 <= k < |env.items| ==> StateOf(env, seen, k) == Preimage
  }

  function TickStaging(env: Plan, s: State): (r: State)
    requires s.proc.Staging?
    ensures r == s.(staging := r.staging, proc := r.proc)
  {
    var i := s.proc.next;
    if |env.items| <= i then s.(proc := SavingIntent) else
    match StagedAt(s.staging, i)
    case Absent => s.(staging := s.staging[i := File(env.items[i].post)], proc := Staging(i + 1))
    case WrongType => s.(proc := Idle)
    case File(data) =>
      if Sha256(data) == Sha256(env.items[i].post) then s.(proc := Staging(i + 1)) else s.(proc := Idle)
  }

  function TickAdvancing(env: Plan, s: State): (r: State)
    requires s.proc.Advancing?
    ensures r == s.(formal := r.formal, proc := r.proc)
  {
    var i := s.proc.next;
    if |env.items| <= i then s.(proc := Idle) else
    var last := i == |env.items| - 1;
    match StateOf(env, s.proc.seen, i)
    case Postimage => s.(proc := if last then Verifying else Advancing(s.proc.seen, i + 1))
    case Preimage =>
      var formal := Publish(env, s.formal, s.staging, i);
      if formal.None? then s.(proc := Idle)
      else s.(formal := formal.value, proc := if last then Verifying else Inspecting(i + 1))
    case _ => s.(proc := Idle)
  }

  // ---------------------------------------------------------------- rollback

  function RollbackOrder(activated: bool): seq<Path> {
    if activated then [Root, Baseline, Database, Code, Meta] else [Database, Code, Meta]
  }

  predicate Activated(env: Plan, seen: Disk) {
    StateOf(env, seen, RootIndex(env)) == Postimage
  }

  /** declaredTargetStatus: the position of a path among the items, or their number when undeclared. */
  function Find(env: Plan, p: Path): (k: nat)
    ensures k <= |env.items|
    ensures k < |env.items| ==> env.items[k].path == p
    ensures forall j :: 0 <= j < |env.items| && env.items[j].path == p ==> j == k
  {
    match p
    case Meta => 0
    case Root => RootIndex(env)
    case Baseline => |env.items| - 1
    case Code => if 3 < |env.items| && env.items[1].path == Code then 1 else |env.items|
    case Database =>
      if |env.items| == 5 then 2
      else if |env.items| == 4 && env.items[1].path == Database then 1
      else |env.items|
  }

  /** The formal paths, the recovered directory, and whether this path was put back. */
  datatype Undone = Undone(formal: Disk, recovered: map<Slot, Bytes>, moved: bool)

  /** One round of Rollback's loop over its order, on the status it read at the start; `None` when it
      stops. Root goes back to its preimage bytes, a created file is moved to its recovered slot. */
  function Undo(env: Plan, d: Disk, recovered: map<Slot, Bytes>, seen: Disk, i: nat, p: Path): Option<Undone> {
    var k := Find(env, p);
    if k == |env.items| || StateOf(env, seen, k) == Preimage then Some(Undone(d, recovered, false))
    else if StateOf(env, seen, k) != Postimage then None
    else
      var t := env.items[k];
      if t.pre.Some? then
        var node := WriteCAS(At(d, p), t.pre.value, Sha256(t.post));
        if node.None? then None else Some(Undone(d[p := node.value], recovered, true))
      else if At(d, p).File? && Sha256(At(d, p).data) == Sha256(t.post) && Slot(i, p) !in recovered then
        Some(Undone(d[p := Absent], recovered[Slot(i, p) := At(d, p).data], true))
      else None
  }

  function TickRollingBack(env: Plan, s: State): (r: State)
    requires s.proc.RollingBack?
    ensures r == s.(formal := r.formal, recovered := r.recovered, proc := r.proc)
  {
    var RollingBack(seen, i, moved) := s.proc;
    var order := RollbackOrder(Activated(env, seen));
    if |order| <= i then s.(proc := RollbackVerifying(moved)) else
    match Undo(env, s.formal, s.recovered, seen, i, order[i])
    case None => s.(proc := Idle)
    case Some(u) =>
      s.(formal := u.formal, recovered := u.recovered,
         proc := RollingBack(seen, i + 1, if u.moved then moved + [order[i]] else moved))
  }

  // ------------------------------------------------------------ transitions

  predicate Reads(proc: Process) {
    proc.Preparing? || proc.Inspecting? || proc.Verifying? || proc.RollbackInspecting? || proc.RollbackVerifying?
  }

  /** Where a step that read `seen` on the formal paths goes. The outside proofs, the Prepare replay
      and the layout verification, are taken to hold exactly on the disks they are meant to accept. */
  function After(env: Plan, proc: Process, area: StagingArea, seen: Disk): Process {
    match proc
    case Preparing => if ReplaysPrepare(env, seen) && Orderly(env, seen) then Staging(0) else Idle
    case Inspecting(i) => if Orderly(env, seen) && StagingIntact(env, area) then Advancing(seen, i) else Idle
    case Verifying => if AllPostimages(env, seen) then Completing else Idle
    case RollbackInspecting =>
      if Orderly(env, seen) && StagingIntact(env, area) then RollingBack(seen, 0, []) else Idle
    case RollbackVerifying(moved) => if AllPreimages(env, seen) then WritingReceipt(moved) else Idle
    case _ => proc
  }

  /** The steps that create or remove the intent, the receipts and the archive. */
  function TickReceipt(s: State): (r: State)
    ensures r.formal == s.formal && r.staging == s.staging && r.recovered == s.recovered
  {
    match s.proc
    case SavingIntent => s.(intent := true, proc := Inspecting(0))
    case Completing => s.(completion := true, proc := Archiving)
    case Archiving => s.(archive := true, proc := Removing)
    case Removing => s.(intent := false, proc := Idle)
    case WritingReceipt(moved) =>
      if s.rollback.None? then s.(rollback := Some(moved), proc := Archiving)
      else s.(proc := if s.rollback.value == moved then Archiving else Idle)
    case _ => s
  }

  /** One uninterrupted step of the process that holds the lock. */
  function Tick(env: Plan, s: State): State {
    if s.proc.Staging? then TickStaging(env, s)
    else if s.proc.Advancing? then TickAdvancing(env, s)
    else if s.proc.RollingBack? then TickRollingBack(env, s)
    else if Reads(s.proc) then s.(proc := After(env, s.proc, s.staging, s.formal))
    else TickReceipt(s)
  }

  datatype Op = Apply | Resume | Rollback

  function Begin(s: State, op: Op): State {
    if s.proc != Idle then s else
    match op
    case Apply => if s.archive then s else if s.intent then s.(proc := Inspecting(0)) else s.(proc := Preparing)
    case Resume => if s.intent then s.(proc := Inspecting(0)) else s
    case Rollback => if s.intent && !s.completion then s.(proc := RollbackInspecting) else s
  }

  /** `Crash` also stands for every error return. `Torn` is an inspection during which third parties
      wrote: it may have read any mixture, here any disk at all. `Foreign` and `ForeignStaging` are third-party writes. */
  datatype Action =
    | Start(op: Op)
    | Step
    | Crash
    | Torn(seen: Disk)
    | Foreign(path: Path, node: Node)
    | ForeignStaging(index: nat, node: Node)

  predicate Quiet(a: Action) {
    a.Start? || a.Step? || a.Crash?
  }

  function Do(env: Plan, s: State, a: Action): State {
    match a
    case Start(op) => Begin(s, op)
    case Step => Tick(env, s)
    case Crash => s.(proc := Idle)
    case Torn(seen) => if Reads(s.proc) then s.(proc := After(env, s.proc, s.staging, seen)) else s
    case Foreign(p, node) => s.(formal := s.formal[p := node])
    case ForeignStaging(i, node) => s.(staging := s.staging[i := node])
  }

  function Exec(env: Plan, s: State, run: seq<Action>): State
    decreases |run|
  {
    if run == [] then s else Exec(env, Do(env, s, run[0]), run[1..])
  }

  predicate QuietRun(run: seq<Action>) {
    forall i :: 0 <= i < |run| ==> Quiet(run[i])
  }

  /** Nothing of the transaction exists yet; the formal and staging paths may hold anything. */
  predicate Initial(s: State) {
    && !s.intent && !s.archive && !s.completion
    && s.rollback.None? && s.recovered == map[] && s.proc == Idle
  }

  function Steps(k: nat): (run: seq<Action>)
    ensures |run| == k && QuietRun(run)
  {
    seq(k, _ => Step)
  }

  lemma {:induction false} ExecConcat(env: Plan, s: State, a: seq<Action>, b: seq<Action>)
    ensures Exec(env, s, a + b) == Exec(env, Exec(env, s, a), b)
    decreases |a|
  {
    if a == [] {
      assert a + b == b;
    } else {
      assert (a + b)[0] == a[0] && (a + b)[1..] == a[1..] + b;
      ExecConcat(env, Do(env, s, a[0]), a[1..], b);
    }
  }
}
