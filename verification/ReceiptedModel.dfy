/** The receipted transactions of internal/cli, the Locale switch and the index relocation, from the
    moment their Intent and staging are on disk. Both publish the images of an immutable Intent in order,
    check unchanged guard assets before every publish, prove the result and archive the Intent. */
module ReceiptedModel {
  import opened Contents

  /** File contents; a marshalled Baseline is kept as the records it decodes to. Equal contents have equal
      digests and only they do. */
  datatype Content = Text(data: Bytes) | BaselineFile(files: map<string, Record>, updatedAt: string)

  /** One Baseline record: its role, and the fingerprint of these contents. */
  datatype Record = Record(role: string, of: Content)

  datatype Asset = Missing | Regular(content: Content) | Other

  type Tree = map<string, Asset>

  datatype Image = Image(path: string, pre: Content, post: Content)

  datatype Guard = Guard(path: string, content: Content)

  datatype Intent = Intent(images: seq<Image>, guards: seq<Guard>)

  /** What the validators demand of an Intent, with the distinct asset paths its planner takes from the
      layout: no two images, and no image and guard, name the same path. */
  predicate ValidIntent(x: Intent) {
    && 1 <= |x.images| <= 3
    && (forall i, j :: 0 <= i < j < |x.images| ==> x.images[i].path != x.images[j].path)
    && (forall i, g :: 0 <= i < |x.images| && 0 <= g < |x.guards| ==> x.images[i].path != x.guards[g].path)
  }

  type Receipt = x: Intent | ValidIntent(x) witness Intent([Image("", Text([]), Text([]))], [])

  datatype Process = Idle | Admitting | Publishing(next: nat) | Verifying | Archiving | Removing

  datatype State = State(tree: Tree, active: bool, archived: bool, proc: Process)

  function At(t: Tree, p: string): Asset {
    if p in t then t[p] else Missing
  }

  datatype DiskState = Preimage | Postimage | Foreign

  /** cognitiontxn.Classify without an absent preimage: the postimage is tested first. */
  function StateOf(t: Tree, image: Image): DiskState {
    if At(t, image.path) == Regular(image.post) then Postimage
    else if At(t, image.path) == Regular(image.pre) then Preimage
    else Foreign
  }

  predicate GuardsHold(x: Receipt, t: Tree) {
    forall g :: 0 <= g < |x.guards| ==> At(t, x.guards[g].path) == Regular(x.guards[g].content)
  }

  /** The scan before publication: no foreign image, and no postimage after a preimage. */
  predicate InOrder(x: Receipt, t: Tree) {
    && (forall i :: 0 <= i < |x.images| ==> StateOf(t, x.images[i]) != Foreign)
    && (forall i, j :: 0 <= i < j < |x.images| && StateOf(t, x.images[j]) == Postimage ==>
          StateOf(t, x.images[i]) == Postimage)
  }

  predicate AllPublished(x: Receipt, t: Tree) {
    forall i :: 0 <= i < |x.images| ==> StateOf(t, x.images[i]) == Postimage
  }

  /** One round of the publication loop; the primitive replaces only the preimage bytes. */
  function TickPublishing(x: Receipt, s: State): (r: State)
    requires s.proc.Publishing?
    ensures r == s.(tree := r.tree, proc := r.proc)
  {
    var i := s.proc.next;
    if |x.images| <= i then s.(proc := Verifying)
    else if StateOf(s.tree, x.images[i]) == Postimage then s.(proc := Publishing(i + 1))
    else if GuardsHold(x, s.tree) && At(s.tree, x.images[i].path) == Regular(x.images[i].pre) then
      s.(tree := s.tree[x.images[i].path := Regular(x.images[i].post)], proc := Publishing(i + 1))
    else s.(proc := Idle)
  }

  function Tick(x: Receipt, s: State): State {
    match s.proc
    case Idle => s
    case Admitting => s.(proc := if GuardsHold(x, s.tree) && InOrder(x, s.tree) then Publishing(0) else Idle)
    case Publishing(_) => TickPublishing(x, s)
    case Verifying => s.(proc := if AllPublished(x, s.tree) && GuardsHold(x, s.tree) then Archiving else Idle)
    case Archiving => s.(archived := true, proc := Removing)
    case Removing => s.(active := false, proc := Idle)
  }

  /** `Start` is the command run again; `Torn` a check passed on bytes read while third parties wrote;
      `Write` a third-party write; `Crash` also stands for every error return. */
  datatype Action = Start | Step | Crash | Torn | Write(path: string, asset: Asset)

  predicate Quiet(a: Action) {
    a.Start? || a.Step? || a.Crash?
  }

  predicate QuietRun(run: seq<Action>) {
    forall i :: 0 <= i < |run| ==> Quiet(run[i])
  }

  function Do(x: Receipt, s: State, a: Action): State {
    match a
    case Start => if s.proc == Idle && s.active then s.(proc := Admitting) else s
    case Step => Tick(x, s)
    case Crash => s.(proc := Idle)
    case Torn => if s.proc.Admitting? then s.(proc := Publishing(0))
                 else if s.proc.Verifying? then s.(proc := Archiving) else s
    case Write(p, asset) => s.(tree := s.tree[p := asset])
  }

  function Exec(x: Receipt, s: State, run: seq<Action>): State
    decreases |run|
  {
    if run == [] then s else Exec(x, Do(x, s, run[0]), run[1..])
  }

  /** The Intent was just saved: its images are at their preimage, its guards hold. */
  predicate Fresh(x: Receipt, s: State) {
    && s.active && !s.archived && s.proc == Idle && GuardsHold(x, s.tree)
    && forall i :: 0 <= i < |x.images| ==> At(s.tree, x.images[i].path) == Regular(x.images[i].pre)
  }

  /** Publishing the first `m` images, without interruption. */
  function Published(x: Receipt, t: Tree, m: nat): Tree
    requires m <= |x.images|
  {
    if m == 0 then t else Published(x, t, m - 1)[x.images[m - 1].path := Regular(x.images[m - 1].post)]
  }

  /** No image that keeps its bytes comes after one that changes them. */
  predicate ChangesFirst(images: seq<Image>) {
    forall i, j :: 0 <= i < j < |images| && images[j].pre == images[j].post ==> images[i].pre == images[i].post
  }
}
