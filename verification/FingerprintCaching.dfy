/** The fingerprint cache of internal/baseline/fingerprint_cache.go against rehashing.

    Time is a non-decreasing clock in nanoseconds. Any number of processes hold a cache each, all of them
    read and write the one cache file, and the tree changes under them between any two steps. Every change
    of what a path names stamps it with a modification time at most two seconds behind the clock and never
    ahead of it; that is the only assumption on modification times. */
module FingerprintCaching {
  import opened Contents
  import opened Fingerprints

  type Path = string

  /** fingerprintCacheRacyWindow. */
  const WINDOW: int := 2_000_000_000

  /** What os.Stat reports of a path that exists. */
  datatype Info = Info(size: int, mtime: int, regular: bool)

  datatype Entry = Entry(size: int, mtime: int, hashedAt: int, fingerprint: Fingerprint, lines: Option<int>)

  datatype Cache = Cache(
    entries: map<Path, Entry>,
    seen: set<Path>,
    disabled: bool,
    dirty: bool,
    hits: nat,
    misses: nat)

  predicate IsGo(rel: Path) { |rel| >= 3 && rel[|rel| - 3..] == ".go" }

  /** Go source is what ends in .go. */
  lemma GoFiles(rel: Path)
    ensures IsGo(rel) <==> exists stem :: rel == stem + ".go"
  {
    if IsGo(rel) {
      assert rel == rel[..|rel| - 3] + ".go";
    }
  }

  // -------------------------------------------------------------------- line counts

  function CountLF(data: Bytes): nat {
    if |data| == 0 then 0 else (if data[|data| - 1] == LF then 1 else 0) + CountLF(data[..|data| - 1])
  }

  /** Every LF ends a line, and bytes after the last one are a line too. */
  function LineCount(data: Bytes): int {
    CountLF(data) + if data != [] && data[|data| - 1] != LF then 1 else 0
  }

  lemma {:induction false} CountLFConcat(a: Bytes, b: Bytes)
    ensures CountLF(a + b) == CountLF(a) + CountLF(b)
    decreases |b|
  {
    if b == [] {
      assert a + b == a;
    } else {
      assert (a + b)[..|a + b| - 1] == a + b[..|b| - 1];
      CountLFConcat(a, b[..|b| - 1]);
    }
  }

  /** Lines as an editor writes them. */
  function Written(lines: seq<Bytes>): Bytes {
    if lines == [] then [] else Written(lines[..|lines| - 1]) + lines[|lines| - 1] + [10]
  }

  lemma {:induction false} NoLF(data: Bytes)
    requires 10 !in data
    ensures CountLF(data) == 0
    decreases |data|
  {
    if data != [] {
      assert data[|data| - 1] in data;
      NoLF(data[..|data| - 1]);
    }
  }

  lemma {:induction false} WrittenLF(lines: seq<Bytes>)
    requires forall i :: 0 <= i < |lines| ==> 10 !in lines[i]
    ensures CountLF(Written(lines)) == |lines|
    ensures lines != [] ==> Written(lines) != [] && Written(lines)[|Written(lines)| - 1] == 10
    decreases |lines|
  {
    if lines != [] {
      var n := |lines| - 1;
      WrittenLF(lines[..n]);
      NoLF(lines[n]);
      CountLFConcat(Written(lines[..n]), lines[n]);
      CountLFConcat(Written(lines[..n]) + lines[n], [10]);
      assert [10][..0] == [];
    }
  }

  /** The count of a text is the number of its lines, the unterminated last one included. */
  lemma LinesAreCounted(lines: seq<Bytes>, last: Bytes)
    requires (forall i :: 0 <= i < |lines| ==> 10 !in lines[i]) && 10 !in last
    ensures LineCount(Written(lines) + last) == |lines| + if last == [] then 0 else 1
  {
    WrittenLF(lines);
    LastLineCounts(Written(lines), last);
  }

  lemma LastLineCounts(before: Bytes, last: Bytes)
    requires (before != [] ==> before[|before| - 1] == 10) && 10 !in last
    ensures LineCount(before + last) == CountLF(before) + if last == [] then 0 else 1
  {
    NoLF(last);
    CountLFConcat(before, last);
    var n := |before + last|;
    assert last == [] ==> before + last == before;
    assert last != [] ==> (before + last)[n - 1] == last[|last| - 1] && last[|last| - 1] in last;
  }

  /** CountLines, over whatever the reads return. */
  method CountLines(chunks: seq<Bytes>) returns (count: int)
    ensures count == LineCount(Joined(chunks))
  {
    count := 0;
    var last, empty := LF, true;
    ghost var bytes: Bytes := [];
    for k := 0 to |chunks|
      invariant bytes == Joined(chunks[..k])
      invariant empty <==> bytes == []
      invariant count == CountLF(bytes)
      invariant !empty ==> last == bytes[|bytes| - 1]
    {
      var chunk := chunks[k];
      JoinedNext(chunks, k);
      CountLFConcat(bytes, chunk);
      if |chunk| > 0 {
        empty, count, last := false, count + CountLF(chunk), chunk[|chunk| - 1];
      }
      bytes := bytes + chunk;
    }
    assert chunks[..|chunks|] == chunks;
    if empty {
      return 0;
    }
    if last != LF {
      count := count + 1;
    }
  }

  // -------------------------------------------------------------------- the cache's decisions

  /** An entry that may be trusted for a file that stats as `stat`. */
  predicate Current(e: Entry, stat: Option<Info>) {
    && stat.Some? && stat.value.regular
    && e.size == stat.value.size && e.mtime == stat.value.mtime
    && e.mtime + WINDOW < e.hashedAt
  }

  function HashHit(c: Cache, rel: Path, stat: Option<Info>): Option<Fingerprint> {
    if !c.disabled && rel in c.entries && c.entries[rel].fingerprint.sha != NoDigest && Current(c.entries[rel], stat)
    then Some(c.entries[rel].fingerprint.(role := "")) else None
  }

  function LinesHit(c: Cache, rel: Path, stat: Option<Info>): Option<int> {
    if !c.disabled && rel in c.entries && c.entries[rel].lines.Some? && Current(c.entries[rel], stat)
    then c.entries[rel].lines else None
  }

  /** A computed fingerprint is kept only when the file stats the same before and after it was read. */
  function Remember(c: Cache, rel: Path, before: Option<Info>, hashedAt: int, fp: Fingerprint, after: Option<Info>): Cache {
    if before.Some? && before.value.regular && after.Some?
       && after.value.size == before.value.size && after.value.mtime == before.value.mtime
    then c.(entries := c.entries[rel := Entry(before.value.size, before.value.mtime, hashedAt, fp.(role := ""), None)],
            dirty := true, misses := c.misses + 1)
    else c.(misses := c.misses + 1)
  }

  /** A count joins the entry that was there before, provided the file stats as that entry says. */
  function RememberLines(c: Cache, rel: Path, lines: int, after: Option<Info>): Cache {
    if !c.disabled && rel in c.entries && after.Some?
       && c.entries[rel].size == after.value.size && c.entries[rel].mtime == after.value.mtime
    then c.(entries := c.entries[rel := c.entries[rel].(lines := Some(lines))], dirty := true)
    else c
  }

  /** What pruning leaves. */
  function Pruned(c: Cache, prune: bool): Cache {
    if prune && c.entries.Keys - c.seen != {}
    then c.(entries := c.entries - (c.entries.Keys - c.seen), dirty := true) else c
  }

  lemma DropOne(all: map<Path, Entry>, gone: set<Path>, rel: Path)
    ensures all - gone - {rel} == all - (gone + {rel})
  {
  }

  /** The pruning loop of Save. */
  method DropUnseen(all: map<Path, Entry>, seen: set<Path>) returns (kept: map<Path, Entry>, dropped: bool)
    ensures kept == all - (all.Keys - seen)
    ensures dropped <==> all.Keys - seen != {}
    ensures !dropped ==> kept == all
  {
    ghost var gone: set<Path> := {};
    kept, dropped := all, false;
    var rest := all.Keys;
    while rest != {}
      invariant rest <= all.Keys && gone <= all.Keys - seen <= gone + rest
      invariant kept == all - gone
      invariant dropped <==> gone != {}
      decreases |rest|
    {
      var rel :| rel in rest;
      rest := rest - {rel};
      if rel !in seen {
        DropOne(all, gone, rel);
        kept, dropped := kept - {rel}, true;
        gone := gone + {rel};
      }
    }
    assert gone == all.Keys - seen;
  }

  // -------------------------------------------------------------------- the imperative cache

  /** Reference definitions: a stat that vouches for an entry, and two stats of an unchanged regular file. */
  ghost predicate Vouches(e: Entry, stat: Option<Info>) {
    && stat.Some? && stat.value == Info(e.size, e.mtime, true)
    && e.mtime + 2_000_000_000 < e.hashedAt
  }

  ghost predicate SameFile(before: Option<Info>, after: Option<Info>) {
    && before.Some? && after.Some? && before.value.regular
    && before.value.size == after.value.size && before.value.mtime == after.value.mtime
  }

  class FingerprintCache {
    var entries: map<Path, Entry>
    var seen: set<Path>
    var disabled: bool
    var dirty: bool
    var hits: nat
    var misses: nat

    ghost function View(): Cache reads this { Cache(entries, seen, disabled, dirty, hits, misses) }

    /** OpenFingerprintCache, given what the cache file decodes to. */
    constructor (stored: Option<map<Path, Entry>>, off: bool)
      ensures View() == Cache(if !off && stored.Some? then stored.value else map[], {}, off, false, 0, 0)
    {
      entries := if !off && stored.Some? then stored.value else map[];
      seen, disabled, dirty, hits, misses := {}, off, false, 0, 0;
    }

    /** HashFile. `before` and `after` are the two stats, `read` is what HashFileReusing returns in between. */
    method HashFile(rel: Path, before: Option<Info>, hashedAt: int, read: Option<Fingerprint>, after: Option<Info>)
      returns (r: Option<Fingerprint>)
      modifies this
      ensures var was := old(View());
              if was.disabled then r == read && View() == was
              else var asked := was.(seen := was.seen + {rel});
                   var hit := HashHit(was, rel, before);
                   if hit.Some? then r == hit && View() == asked.(hits := was.hits + 1)
                   else r == read && View() == if read.Some? then Remember(asked, rel, before, hashedAt, read.value, after) else asked
      ensures var was := old(View());
              var hit := !was.disabled && rel in was.entries && was.entries[rel].fingerprint.sha != NoDigest && Vouches(was.entries[rel], before);
              && (hit <==> hits > was.hits)
              && (hit ==> r == Some(was.entries[rel].fingerprint.(role := "")))
              && (!hit ==> r == read)
              && entries == if !hit && !was.disabled && read.Some? && SameFile(before, after)
                            then was.entries[rel := Entry(before.value.size, before.value.mtime, hashedAt, read.value.(role := ""), None)]
                            else was.entries
    {
      if disabled {
        return read;
      }
      seen := seen + {rel};
      var regular := before.Some? && before.value.regular;
      if regular && rel in entries {
        var entry := entries[rel];
        if entry.fingerprint.sha != NoDigest && entry.size == before.value.size && entry.mtime == before.value.mtime
           && entry.mtime + WINDOW < entry.hashedAt {
          hits := hits + 1;
          return Some(entry.fingerprint.(role := ""));
        }
      }
      if read.None? {
        return None;
      }
      misses := misses + 1;
      if regular && after.Some? && after.value.size == before.value.size && after.value.mtime == before.value.mtime {
        entries := entries[rel := Entry(before.value.size, before.value.mtime, hashedAt, read.value.(role := ""), None)];
        dirty := true;
      }
      return read;
    }

    /** FileLines. `counted` is what CountFileLines returns between the two stats. */
    method FileLines(rel: Path, before: Option<Info>, counted: Option<int>, after: Option<Info>) returns (r: Option<int>)
      modifies this
      ensures var was := old(View());
              var hit := LinesHit(was, rel, before);
              if hit.Some? then r == hit && View() == was.(hits := was.hits + 1)
              else r == counted && View() == if counted.Some? then RememberLines(was, rel, counted.value, after) else was
      ensures var was := old(View());
              var known := !was.disabled && rel in was.entries;
              var hit := known && was.entries[rel].lines.Some? && Vouches(was.entries[rel], before);
              && (hit <==> hits > was.hits)
              && r == (if hit then was.entries[rel].lines else counted)
              && entries == if !hit && known && counted.Some? && after.Some?
                               && after.value.size == was.entries[rel].size && after.value.mtime == was.entries[rel].mtime
                            then was.entries[rel := was.entries[rel].(lines := counted)] else was.entries
    {
      r := KnownLines(rel, before);
      if r.Some? || counted.None? {
        return;
      }
      if !disabled && rel in entries && after.Some? {
        var entry := entries[rel];
        if entry.size == after.value.size && entry.mtime == after.value.mtime {
          entries, dirty := entries[rel := entry.(lines := counted)], true;
        }
      }
      return counted;
    }

    method KnownLines(rel: Path, stat: Option<Info>) returns (r: Option<int>)
      modifies this
      ensures r == LinesHit(old(View()), rel, stat)
      ensures View() == if r.Some? then old(View()).(hits := old(hits) + 1) else old(View())
    {
      if disabled || rel !in entries || entries[rel].lines.None? || !Current(entries[rel], stat) {
        return None;
      }
      hits := hits + 1;
      return entries[rel].lines;
    }

    /** Save. `written` says whether the directory is there and the atomic write succeeds. */
    method Save(prune: bool, writes: bool, written: bool) returns (document: Option<map<Path, Entry>>)
      modifies this
      ensures var was := old(View());
              if was.disabled || !writes then View() == was && document == None
              else var kept := Pruned(was, prune);
                   && document == (if kept.dirty && written then Some(kept.entries) else None)
                   && View() == kept.(dirty := kept.dirty && !written)
      ensures document.Some? <==>
                && !old(disabled) && writes && written
                && (old(dirty) || (prune && exists rel :: rel in old(entries) && rel !in old(seen)))
      ensures document.Some? ==> document.value == entries && !dirty
      ensures forall rel :: rel in entries <==>
                rel in old(entries) && (prune && !old(disabled) && writes ==> rel in old(seen))
      ensures forall rel :: rel in entries ==> entries[rel] == old(entries)[rel]
    {
      if disabled || !writes {
        return None;
      }
      if prune {
        var kept, dropped := DropUnseen(entries, seen);
        entries, dirty := kept, dirty || dropped;
      }
      if !dirty || !written {
        return None;
      }
      dirty := false;
      return Some(entries);
    }
  }

  // -------------------------------------------------------------------- caches over a changing tree

  datatype What = Missing | Other(size: int, mtime: int) | Text(data: Bytes, mtime: int)

  /** What a path names, and how often that has changed. */
  datatype Named = Named(version: nat, what: What)

  function StatOf(what: What): Option<Info> {
    match what
    case Missing => None
    case Other(size, mtime) => Some(Info(size, mtime, false))
    case Text(data, mtime) => Some(Info(|data|, mtime, true))
  }

  /** A file being read: the version it was opened at, and the bytes so far. */
  datatype Reading = Unopened | Reading(version: nat, acc: Bytes, done: bool)

  /** What a process is in the middle of. */
  datatype Op =
    | Idle
    | Hashing(rel: Path, before: Option<Info>, prior: Fingerprint, hashedAt: Option<int>, reading: Reading)
    | Counting(rel: Path, reading: Reading)

  datatype Proc = Proc(cache: Cache, op: Op)

  type Tree = map<Path, Named>

  function At(tree: Tree, rel: Path): Named {
    if rel in tree then tree[rel] else Named(0, Missing)
  }

  /** `stored` is what the cache file decodes to; None when it is absent, corrupt or of another version. */
  datatype State = State(now: int, tree: Tree, stored: Option<map<Path, Entry>>, procs: map<nat, Proc>)

  datatype Action =
    | Pass(d: nat)
    | Change(rel: Path, what: What)
    | Lose
    | Open(p: nat, off: bool)
    | AskHash(p: nat, rel: Path, prior: Fingerprint)
    | AskLines(p: nat, rel: Path)
    | Proceed(p: nat, chunk: Bytes, eof: bool)
    | Abort(p: nat)
    | Save(p: nat, prune: bool, written: bool)

  /** The assumption on modification times. */
  predicate Stamped(what: What, now: int) {
    what != Missing ==> now - WINDOW <= what.mtime <= now
  }

  /** What one read may return: bytes of the file as long as it is the version opened, anything after that. */
  predicate Readable(named: Named, r: Reading, chunk: Bytes, eof: bool)
    requires r.Reading?
  {
    named.version == r.version && named.what.Text? ==>
      r.acc + chunk <= named.what.data && (eof ==> r.acc + chunk == named.what.data)
  }

  function ReadOn(named: Named, r: Reading, chunk: Bytes, eof: bool): Reading {
    if r.Unopened? then Reading(named.version, [], false)
    else if Readable(named, r, chunk, eof) then Reading(r.version, r.acc + chunk, eof)
    else r
  }

  /** The next step of a process that is hashing or counting. */
  function Next(gofmt: Formatter, now: int, tree: Tree, p: Proc, chunk: Bytes, eof: bool): Proc {
    match p.op
    case Idle => p
    case Hashing(rel, before, prior, hashedAt, reading) =>
      var named := At(tree, rel);
      if hashedAt.None? then p.(op := Hashing(rel, before, prior, Some(now), reading))
      else if reading.Reading? && reading.done then
        var fp := HashWith(gofmt, IsGo(rel), reading.acc, Some(prior));
        Proc(Remember(p.cache, rel, before, hashedAt.value, fp, StatOf(named.what)), Idle)
      else p.(op := Hashing(rel, before, prior, hashedAt, ReadOn(named, reading, chunk, eof)))
    case Counting(rel, reading) =>
      var named := At(tree, rel);
      if reading.Reading? && reading.done then
        Proc(RememberLines(p.cache, rel, LineCount(reading.acc), StatOf(named.what)), Idle)
      else p.(op := Counting(rel, ReadOn(named, reading, chunk, eof)))
  }

  /** What process `p` turns into; None when the action is not its to take. */
  function Act(gofmt: Formatter, s: State, a: Action): Option<Proc>
    requires !a.Pass? && !a.Change? && !a.Lose?
  {
    if a.Open? then
      Some(Proc(Cache(if !a.off && s.stored.Some? then s.stored.value else map[], {}, a.off, false, 0, 0), Idle))
    else if a.p !in s.procs then None
    else
      var p := s.procs[a.p];
      match a
      case AskHash(_, rel, prior) =>
        var stat := StatOf(At(s.tree, rel).what);
        if p.op != Idle || p.cache.disabled then None
        else if HashHit(p.cache, rel, stat).Some?
        then Some(p.(cache := p.cache.(seen := p.cache.seen + {rel}, hits := p.cache.hits + 1)))
        else Some(Proc(p.cache.(seen := p.cache.seen + {rel}), Hashing(rel, stat, prior, None, Unopened)))
      case AskLines(_, rel) =>
        var stat := StatOf(At(s.tree, rel).what);
        if p.op != Idle || p.cache.disabled then None
        else if LinesHit(p.cache, rel, stat).Some? then Some(p.(cache := p.cache.(hits := p.cache.hits + 1)))
        else Some(p.(op := Counting(rel, Unopened)))
      case Proceed(_, chunk, eof) => Some(Next(gofmt, s.now, s.tree, p, chunk, eof))
      case Abort(_) => Some(p.(op := Idle))
      case Save(_, prune, written) =>
        if p.op != Idle || p.cache.disabled then None
        else var kept := Pruned(p.cache, prune); Some(p.(cache := kept.(dirty := kept.dirty && !written)))
  }

  function DoProc(gofmt: Formatter, s: State, a: Action): State
    requires !a.Pass? && !a.Change? && !a.Lose?
  {
    var r := Act(gofmt, s, a);
    if r.None? then s
    else
      var s' := s.(procs := s.procs[a.p := r.value]);
      if a.Save? && a.written && Pruned(s.procs[a.p].cache, a.prune).dirty
      then s'.(stored := Some(r.value.cache.entries)) else s'
  }

  function Do(gofmt: Formatter, s: State, a: Action): State {
    match a
    case Pass(d) => s.(now := s.now + d)
    case Change(rel, what) =>
      if Stamped(what, s.now) then s.(tree := s.tree[rel := Named(At(s.tree, rel).version + 1, what)]) else s
    case Lose => s.(stored := None)
    case _ => DoProc(gofmt, s, a)
  }

  function Exec(gofmt: Formatter, s: State, run: seq<Action>): State
    decreases |run|
  {
    if run == [] then s else Exec(gofmt, Do(gofmt, s, run[0]), run[1..])
  }

  // -------------------------------------------------------------------- soundness

  /** A record that hashing could have produced. */
  ghost predicate Honest(gofmt: Formatter, prior: Fingerprint) {
    exists isGo, data :: prior == HashBytes(gofmt, isGo, data).(role := prior.role)
  }

  /** `fp` is the fingerprint of `data`, down to the formatted digest when the priors are honest. */
  ghost predicate Describes(gofmt: Formatter, honest: bool, rel: Path, fp: Fingerprint, data: Bytes) {
    var full := HashBytes(gofmt, IsGo(rel), data);
    fp == full.(format := fp.format, kind := fp.kind) && (honest ==> fp == full)
  }

  ghost predicate EntryOk(gofmt: Formatter, honest: bool, now: int, rel: Path, what: What, e: Entry) {
    && e.hashedAt <= now
    && (what.Text? && what.mtime == e.mtime && e.mtime + WINDOW < e.hashedAt ==>
          && Describes(gofmt, honest, rel, e.fingerprint, what.data)
          && (e.lines.Some? ==> e.lines.value == LineCount(what.data)))
  }

  ghost predicate EntriesOk(gofmt: Formatter, honest: bool, now: int, tree: Tree, entries: map<Path, Entry>) {
    forall rel :: rel in entries ==> EntryOk(gofmt, honest, now, rel, At(tree, rel).what, entries[rel])
  }

  /** A read that a change overtook shows in the modification time. */
  ghost predicate ReadingOk(named: Named, since: int, r: Reading) {
    r.Reading? ==>
      && r.version <= named.version
      && (r.version < named.version && named.what.Text? ==> since <= named.what.mtime + WINDOW)
      && (r.version == named.version && named.what.Text? ==>
            r.acc <= named.what.data && (r.done ==> r.acc == named.what.data))
  }

  ghost predicate OpOk(gofmt: Formatter, honest: bool, now: int, tree: Tree, entries: map<Path, Entry>, op: Op) {
    match op
    case Idle => true
    case Hashing(rel, before, prior, hashedAt, reading) =>
      && (honest ==> Honest(gofmt, prior))
      && (hashedAt.None? ==> reading.Unopened?)
      && (hashedAt.Some? ==> hashedAt.value <= now && ReadingOk(At(tree, rel), hashedAt.value, reading))
    case Counting(rel, reading) =>
      rel in entries ==> ReadingOk(At(tree, rel), entries[rel].hashedAt, reading)
  }

  ghost predicate ProcOk(gofmt: Formatter, honest: bool, now: int, tree: Tree, p: Proc) {
    EntriesOk(gofmt, honest, now, tree, p.cache.entries) && OpOk(gofmt, honest, now, tree, p.cache.entries, p.op)
  }

  ghost predicate Inv(gofmt: Formatter, honest: bool, s: State) {
    && (s.stored.Some? ==> EntriesOk(gofmt, honest, s.now, s.tree, s.stored.value))
    && forall i :: i in s.procs ==> ProcOk(gofmt, honest, s.now, s.tree, s.procs[i])
  }

  lemma HashDescribes(gofmt: Formatter, honest: bool, rel: Path, data: Bytes, prior: Fingerprint)
    requires honest ==> Honest(gofmt, prior)
    ensures Describes(gofmt, honest, rel, HashWith(gofmt, IsGo(rel), data, Some(prior)).(role := ""), data)
  {
    ArbitraryReuse(gofmt, IsGo(rel), data, prior);
    if honest {
      var isGo, was :| prior == HashBytes(gofmt, isGo, was).(role := prior.role);
      HonestReuse(gofmt, IsGo(rel), data, isGo, was, prior.role);
    }
  }

  /** Time passing or a stamped change leaves every entry and every read in order. */
  lemma WorldMoves(gofmt: Formatter, honest: bool, s: State, s': State, rel: Path, p: Proc)
    requires ProcOk(gofmt, honest, s.now, s.tree, p) && s.now <= s'.now
    requires s'.tree == s.tree || (s'.now == s.now && exists what :: Stamped(what, s.now) && s'.tree == s.tree[rel := Named(At(s.tree, rel).version + 1, what)])
    ensures ProcOk(gofmt, honest, s'.now, s'.tree, p)
  {
    forall q | q in p.cache.entries
      ensures EntryOk(gofmt, honest, s'.now, q, At(s'.tree, q).what, p.cache.entries[q])
    {
      assert EntryOk(gofmt, honest, s.now, q, At(s.tree, q).what, p.cache.entries[q]);
    }
    if p.op.Counting? && p.op.rel in p.cache.entries {
      assert EntryOk(gofmt, honest, s.now, p.op.rel, At(s.tree, p.op.rel).what, p.cache.entries[p.op.rel]);
    }
  }

  /** A finished read that nothing overtook makes a true entry. */
  lemma NewEntryOk(gofmt: Formatter, honest: bool, now: int, rel: Path, named: Named, r: Reading, prior: Fingerprint, hashedAt: int, size: int, mtime: int)
    requires honest ==> Honest(gofmt, prior)
    requires r.Reading? && r.done && hashedAt <= now && ReadingOk(named, hashedAt, r)
    ensures var fp := HashWith(gofmt, IsGo(rel), r.acc, Some(prior));
            EntryOk(gofmt, honest, now, rel, named.what, Entry(size, mtime, hashedAt, fp.(role := ""), None))
  {
    HashDescribes(gofmt, honest, rel, r.acc, prior);
  }

  lemma EntryJoins(gofmt: Formatter, honest: bool, now: int, tree: Tree, entries: map<Path, Entry>, rel: Path, e: Entry)
    requires EntriesOk(gofmt, honest, now, tree, entries) && EntryOk(gofmt, honest, now, rel, At(tree, rel).what, e)
    ensures EntriesOk(gofmt, honest, now, tree, entries[rel := e])
  {
  }

  lemma RememberKeeps(gofmt: Formatter, honest: bool, now: int, tree: Tree, p: Proc)
    requires ProcOk(gofmt, honest, now, tree, p) && p.op.Hashing? && p.op.hashedAt.Some?
    requires p.op.reading.Reading? && p.op.reading.done
    ensures ProcOk(gofmt, honest, now, tree, Next(gofmt, now, tree, p, [], false))
  {
    var Hashing(rel, before, prior, hashedAt, reading) := p.op;
    if before.Some? {
      var size, mtime := before.value.size, before.value.mtime;
      NewEntryOk(gofmt, honest, now, rel, At(tree, rel), reading, prior, hashedAt.value, size, mtime);
      var fp := HashWith(gofmt, IsGo(rel), reading.acc, Some(prior));
      EntryJoins(gofmt, honest, now, tree, p.cache.entries, rel, Entry(size, mtime, hashedAt.value, fp.(role := ""), None));
    }
  }

  /** A count joins an entry hashed before the count began. */
  lemma RememberLinesKeeps(gofmt: Formatter, honest: bool, now: int, tree: Tree, p: Proc)
    requires ProcOk(gofmt, honest, now, tree, p) && p.op.Counting?
    requires p.op.reading.Reading? && p.op.reading.done
    ensures ProcOk(gofmt, honest, now, tree, Next(gofmt, now, tree, p, [], false))
  {
    var p' := Next(gofmt, now, tree, p, [], false);
    forall q | q in p'.cache.entries
      ensures EntryOk(gofmt, honest, now, q, At(tree, q).what, p'.cache.entries[q])
    {
      assert EntryOk(gofmt, honest, now, q, At(tree, q).what, p.cache.entries[q]);
    }
  }

  lemma NextKeeps(gofmt: Formatter, honest: bool, now: int, tree: Tree, p: Proc, chunk: Bytes, eof: bool)
    requires ProcOk(gofmt, honest, now, tree, p)
    ensures ProcOk(gofmt, honest, now, tree, Next(gofmt, now, tree, p, chunk, eof))
  {
    if !p.op.Idle? && p.op.reading.Reading? && p.op.reading.done {
      if p.op.Hashing? {
        RememberKeeps(gofmt, honest, now, tree, p);
      } else {
        RememberLinesKeeps(gofmt, honest, now, tree, p);
      }
    }
  }

  lemma PrunedKeeps(gofmt: Formatter, honest: bool, now: int, tree: Tree, c: Cache, prune: bool)
    requires EntriesOk(gofmt, honest, now, tree, c.entries)
    ensures EntriesOk(gofmt, honest, now, tree, Pruned(c, prune).entries)
  {
  }

  /** Priors offered along a run come from hashing. */
  ghost predicate HonestRun(gofmt: Formatter, run: seq<Action>) {
    forall i :: 0 <= i < |run| && run[i].AskHash? ==> Honest(gofmt, run[i].prior)
  }

  lemma ActKeepsInv(gofmt: Formatter, honest: bool, s: State, a: Action)
    requires Inv(gofmt, honest, s) && !a.Pass? && !a.Change? && !a.Lose?
    requires honest && a.AskHash? ==> Honest(gofmt, a.prior)
    ensures Act(gofmt, s, a).Some? ==> ProcOk(gofmt, honest, s.now, s.tree, Act(gofmt, s, a).value)
  {
    if a.p in s.procs {
      var p := s.procs[a.p];
      assert ProcOk(gofmt, honest, s.now, s.tree, p);
      if a.Proceed? {
        NextKeeps(gofmt, honest, s.now, s.tree, p, a.chunk, a.eof);
      } else if a.Save? {
        PrunedKeeps(gofmt, honest, s.now, s.tree, p.cache, a.prune);
      }
    }
  }

  lemma ActionKeepsInv(gofmt: Formatter, honest: bool, s: State, a: Action)
    requires Inv(gofmt, honest, s)
    requires honest && a.AskHash? ==> Honest(gofmt, a.prior)
    ensures Inv(gofmt, honest, Do(gofmt, s, a))
  {
    var s' := Do(gofmt, s, a);
    if a.Pass? || a.Change? {
      var rel := if a.Change? then a.rel else "";
      forall i | i in s'.procs ensures ProcOk(gofmt, honest, s'.now, s'.tree, s'.procs[i]) {
        WorldMoves(gofmt, honest, s, s', rel, s.procs[i]);
      }
      if s.stored.Some? {
        WorldMoves(gofmt, honest, s, s', rel, Proc(Cache(s.stored.value, {}, false, false, 0, 0), Idle));
      }
    } else if !a.Lose? {
      ActKeepsInv(gofmt, honest, s, a);
    }
  }

  lemma {:induction false} RunKeepsInv(gofmt: Formatter, honest: bool, s: State, run: seq<Action>)
    requires Inv(gofmt, honest, s) && (honest ==> HonestRun(gofmt, run))
    ensures Inv(gofmt, honest, Exec(gofmt, s, run))
    decreases |run|
  {
    if run != [] {
      ActionKeepsInv(gofmt, honest, s, run[0]);
      assert forall i :: 0 <= i < |run[1..]| ==> run[1..][i] == run[i + 1];
      RunKeepsInv(gofmt, honest, Do(gofmt, s, run[0]), run[1..]);
    }
  }

  /** Nothing has been cached yet: any tree, no cache file, no process. */
  predicate Fresh(s: State) { s.stored == None && s.procs == map[] }

  /** On every run, in every process, whatever would now be answered from the cache is what rehashing or
      recounting the file's present bytes would answer: always in raw digest, size and normalized digest, and
      in the formatted digest too when every prior offered came from hashing. */
  lemma HitsAreTrue(gofmt: Formatter, s: State, run: seq<Action>, i: nat, rel: Path)
    requires Fresh(s) && i in Exec(gofmt, s, run).procs
    ensures var end := Exec(gofmt, s, run);
            var what, cache := At(end.tree, rel).what, end.procs[i].cache;
            var hit, lines := HashHit(cache, rel, StatOf(what)), LinesHit(cache, rel, StatOf(what));
            && (hit.Some? ==>
                  && what.Text?
                  && Describes(gofmt, false, rel, hit.value, what.data)
                  && (HonestRun(gofmt, run) ==> hit.value == HashBytes(gofmt, IsGo(rel), what.data)))
            && (lines.Some? ==> what.Text? && lines.value == LineCount(what.data))
  {
    var end := Exec(gofmt, s, run);
    HitIsTrue(gofmt, false, s, run, i, rel);
    if HonestRun(gofmt, run) {
      HitIsTrue(gofmt, true, s, run, i, rel);
    }
  }

  lemma HitIsTrue(gofmt: Formatter, honest: bool, s: State, run: seq<Action>, i: nat, rel: Path)
    requires Fresh(s) && i in Exec(gofmt, s, run).procs && (honest ==> HonestRun(gofmt, run))
    ensures var end := Exec(gofmt, s, run);
            var what, cache := At(end.tree, rel).what, end.procs[i].cache;
            rel in cache.entries && Current(cache.entries[rel], StatOf(what)) ==>
              && what.Text?
              && Describes(gofmt, honest, rel, cache.entries[rel].fingerprint, what.data)
              && (cache.entries[rel].lines.Some? ==> cache.entries[rel].lines.value == LineCount(what.data))
  {
    RunKeepsInv(gofmt, honest, s, run);
    var end := Exec(gofmt, s, run);
    assert ProcOk(gofmt, honest, end.now, end.tree, end.procs[i]);
    var cache := end.procs[i].cache;
    if rel in cache.entries {
      assert EntryOk(gofmt, honest, end.now, rel, At(end.tree, rel).what, cache.entries[rel]);
    }
  }

  lemma DoProceed(gofmt: Formatter, s: State, i: nat, chunk: Bytes, eof: bool)
    requires i in s.procs
    ensures Do(gofmt, s, Proceed(i, chunk, eof)) ==
            s.(procs := s.procs[i := Next(gofmt, s.now, s.tree, s.procs[i], chunk, eof)])
  {
  }

  lemma HashingSteps(gofmt: Formatter, now: int, tree: Tree, cache: Cache, rel: Path, before: Option<Info>, prior: Fingerprint)
    requires At(tree, rel).what.Text?
    ensures var named := At(tree, rel);
            var p1 := Next(gofmt, now, tree, Proc(cache, Hashing(rel, before, prior, None, Unopened)), [], false);
            var p2 := Next(gofmt, now, tree, p1, [], false);
            var p3 := Next(gofmt, now, tree, p2, named.what.data, true);
            var fp := HashWith(gofmt, IsGo(rel), named.what.data, Some(prior));
            Next(gofmt, now, tree, p3, [], false) == Proc(Remember(cache, rel, before, now, fp, StatOf(named.what)), Idle)
  {
    assert [] + At(tree, rel).what.data == At(tree, rel).what.data;
  }

  /** The cache does serve: a file hashed undisturbed answers the next call by its stat exactly when it was
      last stamped more than the window before the hash began. */
  lemma UndisturbedHashIsKept(gofmt: Formatter, s: State, i: nat, rel: Path, prior: Fingerprint)
    requires i in s.procs && s.procs[i].op == Idle && !s.procs[i].cache.disabled
    requires At(s.tree, rel).what.Text? && HashHit(s.procs[i].cache, rel, StatOf(At(s.tree, rel).what)) == None
    ensures var what, ask, go := At(s.tree, rel).what, AskHash(i, rel, prior), Proceed(i, [], false);
            var third := Do(gofmt, Do(gofmt, Do(gofmt, s, ask), go), go);
            var end := Do(gofmt, Do(gofmt, third, Proceed(i, what.data, true)), go);
            && i in end.procs
            && HashHit(end.procs[i].cache, rel, StatOf(what)) ==
               if what.mtime + WINDOW < s.now then Some(HashWith(gofmt, IsGo(rel), what.data, Some(prior))) else None
  {
    var what, ask, go := At(s.tree, rel).what, AskHash(i, rel, prior), Proceed(i, [], false);
    var s1 := Do(gofmt, s, ask);
    HashingSteps(gofmt, s1.now, s1.tree, s1.procs[i].cache, rel, StatOf(what), prior);
    DoProceed(gofmt, s1, i, [], false);
    var s2 := Do(gofmt, s1, go);
    DoProceed(gofmt, s2, i, [], false);
    var s3 := Do(gofmt, s2, go);
    DoProceed(gofmt, s3, i, what.data, true);
    var s4 := Do(gofmt, s3, Proceed(i, what.data, true));
    DoProceed(gofmt, s4, i, [], false);
  }

  lemma CountingSteps(gofmt: Formatter, now: int, tree: Tree, cache: Cache, rel: Path)
    requires At(tree, rel).what.Text?
    ensures var named := At(tree, rel);
            var p1 := Next(gofmt, now, tree, Proc(cache, Counting(rel, Unopened)), [], false);
            var p2 := Next(gofmt, now, tree, p1, named.what.data, true);
            Next(gofmt, now, tree, p2, [], false) ==
              Proc(RememberLines(cache, rel, LineCount(named.what.data), StatOf(named.what)), Idle)
  {
    assert [] + At(tree, rel).what.data == At(tree, rel).what.data;
  }

  /** So does a count: it answers the next call for a file whose entry is trusted. */
  lemma UndisturbedCountIsKept(gofmt: Formatter, s: State, i: nat, rel: Path)
    requires i in s.procs && s.procs[i].op == Idle && !s.procs[i].cache.disabled
    requires At(s.tree, rel).what.Text? && rel in s.procs[i].cache.entries
    requires LinesHit(s.procs[i].cache, rel, StatOf(At(s.tree, rel).what)) == None
    ensures var what, go := At(s.tree, rel).what, Proceed(i, [], false);
            var second := Do(gofmt, Do(gofmt, s, AskLines(i, rel)), go);
            var end := Do(gofmt, Do(gofmt, second, Proceed(i, what.data, true)), go);
            && i in end.procs
            && LinesHit(end.procs[i].cache, rel, StatOf(what)) ==
               if Vouches(s.procs[i].cache.entries[rel], StatOf(what)) then Some(LineCount(what.data)) else None
  {
    var what, go := At(s.tree, rel).what, Proceed(i, [], false);
    var s1 := Do(gofmt, s, AskLines(i, rel));
    CountingSteps(gofmt, s1.now, s1.tree, s1.procs[i].cache, rel);
    DoProceed(gofmt, s1, i, [], false);
    var s2 := Do(gofmt, s1, go);
    DoProceed(gofmt, s2, i, what.data, true);
    var s3 := Do(gofmt, s2, Proceed(i, what.data, true));
    DoProceed(gofmt, s3, i, [], false);
  }
}
