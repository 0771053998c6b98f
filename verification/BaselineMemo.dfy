/** Loading the Baseline through the process memo (internal/baseline/baseline.go, process_memo.go).

    A Go map and a pointed-to struct are references, so the file map and the database bindings of a Baseline
    are heap objects here: a memo that handed out or kept one of its callers' objects would show. `decode` is
    JSON decoding followed by the validations of Load; it is a parameter, None when any of them fails. */
module BaselineMemo {
  import opened Contents
  import opened Fingerprints

  type Path = string
  type FileMap = map<string, Fingerprint>

  class Files {
    var entries: FileMap
    constructor (e: FileMap) ensures entries == e { entries := e; }
  }

  class Bindings {
    var entries: Option<seq<string>>
    constructor (e: Option<seq<string>>) ensures entries == e { entries := e; }
  }

  /** What a Baseline file says. */
  datatype Document = Document(header: string, bindings: Option<seq<string>>, files: FileMap)

  type Decoder = Bytes -> Option<Document>

  class Baseline {
    var header: string
    var bindings: Bindings
    var files: Files

    ghost function Value(): Document reads this, bindings, files {
      Document(header, bindings.entries, files.entries)
    }

    constructor (h: string, b: Bindings, f: Files)
      ensures header == h && bindings == b && files == f
    {
      header, bindings, files := h, b, f;
    }
  }

  /** baselineMemoRecord; the header is kept in encoded form, so only as a value. */
  datatype Record = Record(digest: Digest, header: string, bindings: Option<seq<string>>, files: Files)

  /** The same process without a memo and without references: every load decodes, every holder has a value. */
  datatype Session = Session(disk: map<Path, Node>, held: seq<Document>)

  datatype Act =
    | Load(path: Path)
    | PutFile(k: nat, rel: string, fingerprint: Fingerprint)
    | DropFile(k: nat, rel: string)
    | SetHeader(k: nat, header: string)
    | SetBindings(k: nat, bindings: Option<seq<string>>)
    | Rewrite(path: Path, node: Node)

  function Decoded(decode: Decoder, disk: map<Path, Node>, path: Path): Option<Document> {
    if path in disk && disk[path].File? then decode(disk[path].data) else None
  }

  function Edited(doc: Document, a: Act): Document {
    match a
    case PutFile(_, rel, fingerprint) => doc.(files := doc.files[rel := fingerprint])
    case DropFile(_, rel) => doc.(files := doc.files - {rel})
    case SetHeader(_, header) => doc.(header := header)
    case SetBindings(_, bindings) => doc.(bindings := bindings)
    case _ => doc
  }

  function Plainly(decode: Decoder, s: Session, a: Act): Session {
    match a
    case Load(path) =>
      var doc := Decoded(decode, s.disk, path);
      if doc.Some? then s.(held := s.held + [doc.value]) else s
    case Rewrite(path, node) => s.(disk := s.disk[path := node])
    case _ => if a.k < |s.held| then s.(held := s.held[a.k := Edited(s.held[a.k], a)]) else s
  }

  function PlainRun(decode: Decoder, s: Session, acts: seq<Act>): Session {
    if acts == [] then s
    else Plainly(decode, PlainRun(decode, s, acts[..|acts| - 1]), acts[|acts| - 1])
  }

  /** cloneFingerprintMap. */
  method Clone(source: Files) returns (copy: Files)
    ensures fresh(copy) && copy.entries == source.entries
  {
    copy := new Files(map[]);
    var rest := source.entries.Keys;
    while rest != {}
      invariant fresh(copy) && rest <= source.entries.Keys
      invariant copy.entries.Keys == source.entries.Keys - rest
      invariant forall rel :: rel in copy.entries ==> copy.entries[rel] == source.entries[rel]
      decreases |rest|
    {
      var rel :| rel in rest;
      copy.entries := copy.entries[rel := source.entries[rel]];
      rest := rest - {rel};
    }
  }

  /** One process: its memo, the disk it reads, and the Baselines its callers hold. */
  class Loader {
    const decode: Decoder
    const disabled: bool
    var memo: map<Path, Record>
    var disk: map<Path, Node>
    /** Every Baseline handed to a caller, and what its holder may rely on it to say. */
    var held: seq<Baseline>
    ghost var values: seq<Document>
    /** Every object the memo owns, and every object a caller can reach. */
    ghost var owned: set<object>
    ghost var reached: set<object>

    ghost predicate MemoOk() reads this, owned {
      forall path :: path in memo ==>
        var r := memo[path];
        && r.files in owned && r.digest.Sha256?
        && decode(r.digest.data) == Some(Document(r.header, r.bindings, r.files.entries))
    }

    ghost predicate HeldOk() reads this, reached {
      && |held| == |values|
      && (forall k :: 0 <= k < |held| ==>
            && held[k] in reached && held[k].bindings in reached && held[k].files in reached
            && held[k].Value() == values[k])
      && (forall j, k :: 0 <= j < k < |held| ==>
            held[j] != held[k] && held[j].bindings != held[k].bindings && held[j].files != held[k].files)
    }

    ghost predicate Valid() reads this, owned, reached {
      && this !in owned && this !in reached && owned !! reached
      && MemoOk() && HeldOk()
    }

    ghost function View(): Session reads this { Session(disk, values) }

    constructor (d: Decoder, off: bool, start: map<Path, Node>)
      ensures Valid() && View() == Session(start, []) && decode == d
      ensures owned == {} && reached == {}
    {
      decode, disabled, memo, disk, held, values, owned, reached := d, off, map[], start, [], [], {}, {};
    }

    /** lookupBaselineMemo. */
    method Lookup(path: Path, data: Bytes) returns (r: Baseline?)
      requires Valid()
      ensures r != null ==> fresh(r) && fresh(r.bindings) && fresh(r.files)
      ensures r != null ==> decode(data) == Some(r.Value())
      ensures r != null <==> !disabled && path in memo && memo[path].digest == Sha256(data)
    {
      if disabled || path !in memo || memo[path].digest != Sha256(data) {
        return null;
      }
      var record := memo[path];
      var bindings := new Bindings(record.bindings);
      var files := Clone(record.files);
      r := new Baseline(record.header, bindings, files);
    }

    /** storeBaselineMemo. */
    method Store(path: Path, data: Bytes, value: Baseline)
      requires Valid() && decode(data) == Some(value.Value())
      modifies this`memo, this`owned
      ensures Valid() && owned >= old(owned) && fresh(owned - old(owned))
      ensures memo.Keys == (if disabled then old(memo).Keys else old(memo).Keys + {path})
      ensures forall p :: p in old(memo) && (disabled || p != path) ==> memo[p] == old(memo)[p]
      ensures !disabled ==> memo[path].digest == Sha256(data)
    {
      if disabled {
        return;
      }
      var files := Clone(value.files);
      memo := memo[path := Record(Sha256(data), value.header, value.bindings.entries, files)];
      owned := owned + {files};
    }

    /** Load: what comes back is what decoding the bytes on disk now gives, in objects nobody else has. */
    method Load(path: Path) returns (r: Baseline?, exists_: bool, error: bool)
      requires Valid()
      modifies this`memo, this`owned
      ensures Valid() && owned >= old(owned) && fresh(owned - old(owned))
      ensures exists_ <==> path in disk && disk[path].File?
      ensures error <==> path in disk && (disk[path].WrongType? || (disk[path].File? && decode(disk[path].data) == None))
      ensures r != null <==> Decoded(decode, disk, path).Some?
      ensures r != null ==> Some(r.Value()) == Decoded(decode, disk, path)
      ensures r != null ==> fresh(r) && fresh(r.bindings) && fresh(r.files)
      ensures r != null ==> r !in owned && r.bindings !in owned && r.files !in owned
      ensures r != null && !disabled ==> path in memo && memo[path].digest == Sha256(disk[path].data)
    {
      if path !in disk || disk[path].Absent? {
        return null, false, false;
      }
      if disk[path].WrongType? {
        return null, false, true;
      }
      var data := disk[path].data;
      r := Lookup(path, data);
      if r != null {
        return r, true, false;
      }
      var decoded := decode(data);
      if decoded.None? {
        return null, true, true;
      }
      var bindings := new Bindings(decoded.value.bindings);
      var files := new Files(decoded.value.files);
      r := new Baseline(decoded.value.header, bindings, files);
      Store(path, data, r);
      return r, true, false;
    }

    /** A caller changes, in place, the file map it was handed. */
    method EditFiles(k: nat, entries: FileMap)
      requires Valid() && k < |held|
      modifies held[k].files, this`values
      ensures Valid() && values == old(values)[k := old(values)[k].(files := entries)]
    {
      held[k].files.entries := entries;
      values := values[k := values[k].(files := entries)];
    }

    method EditBindings(k: nat, entries: Option<seq<string>>)
      requires Valid() && k < |held|
      modifies held[k].bindings, this`values
      ensures Valid() && values == old(values)[k := old(values)[k].(bindings := entries)]
    {
      held[k].bindings.entries := entries;
      values := values[k := values[k].(bindings := entries)];
    }

    method EditHeader(k: nat, header: string)
      requires Valid() && k < |held|
      modifies held[k], this`values
      ensures Valid() && values == old(values)[k := old(values)[k].(header := header)]
    {
      held[k].header := header;
      values := values[k := values[k].(header := header)];
    }

    method Edit(a: Act)
      requires Valid() && !a.Load? && !a.Rewrite? && a.k < |held|
      modifies held[a.k], held[a.k].bindings, held[a.k].files, this`values
      ensures Valid() && values == old(values)[a.k := Edited(old(values)[a.k], a)]
    {
      match a {
        case PutFile(k, rel, fingerprint) => EditFiles(k, held[k].files.entries[rel := fingerprint]);
        case DropFile(k, rel) => EditFiles(k, held[k].files.entries - {rel});
        case SetHeader(k, header) => EditHeader(k, header);
        case SetBindings(k, bindings) => EditBindings(k, bindings);
      }
    }

    method Perform(a: Act)
      requires Valid()
      modifies this, reached
      ensures Valid() && View() == Plainly(decode, old(View()), a)
      ensures reached >= old(reached) && fresh(reached - old(reached))
    {
      if a.Load? {
        var r, _, _ := Load(a.path);
        if r != null {
          held, values := held + [r], values + [r.Value()];
          reached := reached + {r, r.bindings, r.files};
        }
      } else if a.Rewrite? {
        disk := disk[a.path := a.node];
      } else if a.k < |held| {
        Edit(a);
      }
    }

    /** Over any sequence of loads, edits of what was handed out and rewrites of the file, the memo and the
        sharing of objects never show. */
    method Run(acts: seq<Act>)
      requires Valid()
      modifies this, reached
      ensures Valid() && View() == PlainRun(decode, old(View()), acts)
    {
      for n := 0 to |acts|
        invariant Valid() && View() == PlainRun(decode, old(View()), acts[..n])
        invariant reached >= old(reached) && fresh(reached - old(reached))
      {
        assert acts[..n + 1][..n] == acts[..n];
        Perform(acts[n]);
      }
      assert acts[..|acts|] == acts;
    }
  }
}
