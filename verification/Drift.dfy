/** Drift detection of internal/baseline: DetectManagedScope, DetectWith and their sorted result lists.

    A document is the paths of its sections' entries. Which paths are excluded and which directories exist
    on disk are given as sets of facts; a missing Baseline is None. */
module Drift {
  import opened Contents
  import opened Fingerprints

  type Files = map<string, Fingerprint>

  const INDEX := "index"
  const OBSERVE := "observe"

  datatype Kind = Missing | Orphan | Stale | Unbaselined | LineEndingOnly | ObservedNew | ObservedChanged | ObservedRemoved

  datatype Result = Result(
    missing: seq<string>,
    orphan: seq<string>,
    stale: seq<string>,
    unbaselined: seq<string>,
    lineEndingOnly: seq<string>,
    observedNew: seq<string>,
    observedChanged: seq<string>,
    observedRemoved: seq<string>)

  datatype Input = Input(
    sections: seq<seq<string>>,
    excluded: string -> bool,
    directories: set<string>,
    base: Option<Files>,
    snapshot: Files,
    tolerate: bool)

  function EffectiveRole(f: Fingerprint): string { if f.role == "" then INDEX else f.role }

  function Get(r: Result, kind: Kind): seq<string> {
    match kind
    case Missing => r.missing
    case Orphan => r.orphan
    case Stale => r.stale
    case Unbaselined => r.unbaselined
    case LineEndingOnly => r.lineEndingOnly
    case ObservedNew => r.observedNew
    case ObservedChanged => r.observedChanged
    case ObservedRemoved => r.observedRemoved
  }

  // -------------------------------------------------------------------- what is listed

  predicate IsDirectory(rel: string) { rel != "" && rel[|rel| - 1] == '/' }

  predicate Listed(d: Input, rel: string) {
    rel != "" && !d.excluded(rel) && exists i :: 0 <= i < |d.sections| && rel in d.sections[i]
  }

  predicate Indexed(d: Input, rel: string) { Listed(d, rel) && !IsDirectory(rel) }

  predicate LostDirectory(d: Input, rel: string) { Listed(d, rel) && IsDirectory(rel) && rel !in d.directories }

  /** The path is recorded under the given role. */
  predicate Recorded(d: Input, rel: string, role: string) {
    d.base.Some? && rel in d.base.value && EffectiveRole(d.base.value[rel]) == role
  }

  function Compared(d: Input, rel: string): (bool, bool)
    requires d.base.Some? && rel in d.base.value && rel in d.snapshot
  {
    Equivalent(d.base.value[rel], d.snapshot[rel], d.tolerate)
  }

  /** What a path of the snapshot contributes to each list. */
  predicate FromSnapshot(d: Input, kind: Kind, rel: string)
    requires rel in d.snapshot
  {
    var role := EffectiveRole(d.snapshot[rel]);
    match kind
    case Missing => role == INDEX && !Indexed(d, rel)
    case Orphan => role == OBSERVE && Indexed(d, rel)
    case Stale => role == INDEX && Recorded(d, rel, INDEX) && !Compared(d, rel).0
    case Unbaselined => role == INDEX && !Recorded(d, rel, INDEX)
    case LineEndingOnly => role == INDEX && Recorded(d, rel, INDEX) && Compared(d, rel) == (true, true)
    case ObservedNew => role == OBSERVE && !Recorded(d, rel, OBSERVE)
    case ObservedChanged => role == OBSERVE && Recorded(d, rel, OBSERVE) && !Compared(d, rel).0
    case ObservedRemoved => false
  }

  /** What a Baseline record without a file contributes. */
  predicate FromBaseline(d: Input, kind: Kind, rel: string)
    requires d.base.Some? && rel in d.base.value
  {
    rel !in d.snapshot &&
    match kind
    case ObservedRemoved => EffectiveRole(d.base.value[rel]) == OBSERVE
    case Orphan => EffectiveRole(d.base.value[rel]) != OBSERVE && Indexed(d, rel)
    case _ => false
  }

  predicate FromIndex(d: Input, kind: Kind, rel: string) {
    kind == Orphan && ((Indexed(d, rel) && rel !in d.snapshot) || LostDirectory(d, rel))
  }

  predicate ManagedReports(d: Input, kind: Kind, rel: string) {
    || (rel in d.snapshot && FromSnapshot(d, kind, rel))
    || (d.base.Some? && rel in d.base.value && FromBaseline(d, kind, rel))
    || FromIndex(d, kind, rel)
  }

  /** What DetectWith lists. */
  predicate PlainReports(d: Input, kind: Kind, rel: string) {
    match kind
    case Missing => rel in d.snapshot && !Indexed(d, rel)
    case Orphan => FromIndex(d, Orphan, rel)
    case _ => Indexed(d, rel) && rel in d.snapshot && FromFile(d, kind, rel)
  }

  predicate FromFile(d: Input, kind: Kind, rel: string)
    requires rel in d.snapshot
  {
    var known := d.base.Some? && rel in d.base.value;
    match kind
    case Stale => known && !Compared(d, rel).0
    case Unbaselined => !known
    case LineEndingOnly => known && Compared(d, rel) == (true, true)
    case _ => false
  }

  // -------------------------------------------------------------------- exactness

  predicate ValidRole(f: Fingerprint) { EffectiveRole(f) in {INDEX, OBSERVE} }

  predicate ValidRoles(files: Files) { forall rel :: rel in files ==> ValidRole(files[rel]) }

  /** The index, the Baseline and the tree agree. */
  ghost predicate Agree(d: Input) {
    && (forall rel :: Indexed(d, rel) <==> rel in d.snapshot && EffectiveRole(d.snapshot[rel]) == INDEX)
    && (forall rel :: rel in d.snapshot ==> Recorded(d, rel, EffectiveRole(d.snapshot[rel])) && Compared(d, rel).0)
    && (forall rel :: Recorded(d, rel, OBSERVE) ==> rel in d.snapshot)
    && (forall rel :: Listed(d, rel) && IsDirectory(rel) ==> rel in d.directories)
  }

  ghost predicate NoDrift(d: Input) {
    forall kind, rel :: ManagedReports(d, kind, rel) ==> kind == LineEndingOnly
  }

  lemma NoDriftAt(d: Input, kind: Kind, rel: string)
    requires NoDrift(d) && kind != LineEndingOnly
    ensures !ManagedReports(d, kind, rel)
  {
  }

  /** The drift lists are all empty exactly when everything agrees. */
  lemma DriftIsExact(d: Input)
    requires ValidRoles(d.snapshot)
    ensures NoDrift(d) <==> Agree(d)
  {
    if NoDrift(d) {
      forall rel ensures Indexed(d, rel) <==> rel in d.snapshot && EffectiveRole(d.snapshot[rel]) == INDEX {
        NoDriftAt(d, Missing, rel);
        NoDriftAt(d, Orphan, rel);
      }
      forall rel | rel in d.snapshot
        ensures Recorded(d, rel, EffectiveRole(d.snapshot[rel])) && Compared(d, rel).0
      {
        NoDriftAt(d, Unbaselined, rel);
        NoDriftAt(d, Stale, rel);
        NoDriftAt(d, ObservedNew, rel);
        NoDriftAt(d, ObservedChanged, rel);
      }
      forall rel | Recorded(d, rel, OBSERVE) ensures rel in d.snapshot {
        NoDriftAt(d, ObservedRemoved, rel);
      }
      forall rel | Listed(d, rel) && IsDirectory(rel) ensures rel in d.directories {
        NoDriftAt(d, Orphan, rel);
      }
    }
  }

  /** The roles have to be valid: a file with any other role is in no list, whatever became of it. */
  lemma UnknownRoleIsUnreported(d: Input, rel: string, current: Fingerprint)
    requires !IsDirectory(rel) && !ValidRole(current)
    ensures rel in d.snapshot && d.snapshot[rel] == current ==> forall kind :: !ManagedReports(d, kind, rel)
    ensures var lone := Input([], _ => false, {}, None, map[rel := current], d.tolerate);
            NoDrift(lone) && !Agree(lone)
  {
    var lone := Input([], _ => false, {}, None, map[rel := current], d.tolerate);
    assert !Recorded(lone, rel, EffectiveRole(lone.snapshot[rel]));
  }

  /** Where every role is index the two detectors say the same of every path they both judge. */
  lemma DetectorsAgree(d: Input, rel: string)
    requires forall p :: p in d.snapshot ==> EffectiveRole(d.snapshot[p]) == INDEX
    requires d.base.Some? ==> forall p :: p in d.base.value ==> EffectiveRole(d.base.value[p]) == INDEX
    ensures ManagedReports(d, Missing, rel) <==> PlainReports(d, Missing, rel)
    ensures ManagedReports(d, Orphan, rel) <==> PlainReports(d, Orphan, rel)
    ensures forall kind :: kind in {Stale, Unbaselined, LineEndingOnly} ==>
      (ManagedReports(d, kind, rel) && Indexed(d, rel) && rel in d.snapshot <==> PlainReports(d, kind, rel))
    ensures forall kind :: kind in {ObservedNew, ObservedChanged, ObservedRemoved} ==>
      !ManagedReports(d, kind, rel) && !PlainReports(d, kind, rel)
  {
  }

  // -------------------------------------------------------------------- what the lists mean for files

  /** A file as it was recorded or found: its role, whether it is Go source, and its bytes. */
  datatype Held = Held(role: string, isGo: bool, data: Bytes)

  type Holding = map<string, Held>

  function Hashed(gofmt: Formatter, files: Holding): Files {
    map rel | rel in files :: HashBytes(gofmt, files[rel].isGo, files[rel].data).(role := files[rel].role)
  }

  /** Reference definitions, on roles, paths and bytes. */
  ghost predicate InRole(h: Held, role: string) { h.role == role || (h.role == "" && role == "index") }

  ghost predicate Alike(a: Bytes, b: Bytes, tolerate: bool) {
    a == b || (tolerate && Eligible(a) && Eligible(b) && SameButLineEndings(Tokens(a), Tokens(b)))
  }

  ghost predicate NamesFile(d: Input, rel: string) {
    rel != "" && rel[|rel| - 1] != '/' && !d.excluded(rel) && exists i :: 0 <= i < |d.sections| && rel in d.sections[i]
  }

  ghost predicate NamesLostDirectory(d: Input, rel: string) {
    && rel != "" && rel[|rel| - 1] == '/' && !d.excluded(rel) && rel !in d.directories
    && exists i :: 0 <= i < |d.sections| && rel in d.sections[i]
  }

  /** The records and the snapshot of `d` are hashes of these files; `base` is empty when there is no Baseline. */
  ghost predicate Of(gofmt: Formatter, d: Input, base: Holding, present: Holding) {
    && d.snapshot == Hashed(gofmt, present)
    && (if d.base.Some? then d.base.value == Hashed(gofmt, base) else base == map[])
  }

  lemma FilesMean(gofmt: Formatter, d: Input, base: Holding, present: Holding, rel: string)
    requires Of(gofmt, d, base, present)
    ensures Indexed(d, rel) <==> NamesFile(d, rel)
    ensures LostDirectory(d, rel) <==> NamesLostDirectory(d, rel)
    ensures rel in d.snapshot <==> rel in present
    ensures forall role :: Recorded(d, rel, role) && role in {"index", "observe"} <==>
              rel in base && InRole(base[rel], role) && role in {"index", "observe"}
    ensures rel in present ==> forall role :: role in {"index", "observe"} ==>
              (EffectiveRole(d.snapshot[rel]) == role <==> InRole(present[rel], role))
  {
  }

  lemma ComparedMeans(gofmt: Formatter, d: Input, base: Holding, present: Holding, rel: string)
    requires Of(gofmt, d, base, present) && rel in base && rel in present
    ensures d.base.Some? && rel in d.base.value && rel in d.snapshot
    ensures Compared(d, rel).0 <==> Alike(base[rel].data, present[rel].data, d.tolerate)
    ensures Compared(d, rel) == (true, true) <==>
            Alike(base[rel].data, present[rel].data, d.tolerate) && base[rel].data != present[rel].data
  {
    var a, b := base[rel], present[rel];
    ToleranceMeaning(gofmt, a.isGo, a.data, a.role, b.isGo, b.data, b.role, d.tolerate);
  }

  /** Every list of DetectManagedScope: what concerns the index, ... */
  lemma IndexListsMean(gofmt: Formatter, d: Input, base: Holding, present: Holding, rel: string)
    requires Of(gofmt, d, base, present)
    ensures var indexed := rel in present && InRole(present[rel], "index");
            var wasIndexed := rel in base && InRole(base[rel], "index");
            && (ManagedReports(d, Missing, rel) <==> indexed && !NamesFile(d, rel))
            && (ManagedReports(d, Orphan, rel) <==>
                  || (NamesFile(d, rel) && (rel !in present || InRole(present[rel], "observe")))
                  || NamesLostDirectory(d, rel))
            && (ManagedReports(d, Unbaselined, rel) <==> indexed && !wasIndexed)
            && (ManagedReports(d, Stale, rel) <==>
                  indexed && wasIndexed && !Alike(base[rel].data, present[rel].data, d.tolerate))
            && (ManagedReports(d, LineEndingOnly, rel) <==>
                  && indexed && wasIndexed && base[rel].data != present[rel].data
                  && Alike(base[rel].data, present[rel].data, d.tolerate))
  {
    FilesMean(gofmt, d, base, present, rel);
    assert Recorded(d, rel, INDEX) <==> rel in base && InRole(base[rel], "index");
    if rel in base && rel in present {
      ComparedMeans(gofmt, d, base, present, rel);
    }
  }

  /** ... and what concerns observed files. */
  lemma ObservedListsMean(gofmt: Formatter, d: Input, base: Holding, present: Holding, rel: string)
    requires Of(gofmt, d, base, present)
    ensures var observed := rel in present && InRole(present[rel], "observe");
            var wasObserved := rel in base && InRole(base[rel], "observe");
            && (ManagedReports(d, ObservedNew, rel) <==> observed && !wasObserved)
            && (ManagedReports(d, ObservedChanged, rel) <==>
                  observed && wasObserved && !Alike(base[rel].data, present[rel].data, d.tolerate))
            && (ManagedReports(d, ObservedRemoved, rel) <==> wasObserved && rel !in present)
  {
    FilesMean(gofmt, d, base, present, rel);
    assert Recorded(d, rel, OBSERVE) <==> rel in base && InRole(base[rel], "observe");
    if rel in base && rel in present {
      ComparedMeans(gofmt, d, base, present, rel);
    }
  }

  /** Every list of DetectWith. */
  lemma PlainListsMean(gofmt: Formatter, d: Input, base: Holding, present: Holding, rel: string)
    requires Of(gofmt, d, base, present)
    ensures var found := NamesFile(d, rel) && rel in present;
            && (PlainReports(d, Missing, rel) <==> rel in present && !NamesFile(d, rel))
            && (PlainReports(d, Orphan, rel) <==> (NamesFile(d, rel) && rel !in present) || NamesLostDirectory(d, rel))
            && (PlainReports(d, Unbaselined, rel) <==> found && rel !in base)
            && (PlainReports(d, Stale, rel) <==>
                  found && rel in base && !Alike(base[rel].data, present[rel].data, d.tolerate))
            && (PlainReports(d, LineEndingOnly, rel) <==>
                  && found && rel in base && base[rel].data != present[rel].data
                  && Alike(base[rel].data, present[rel].data, d.tolerate))
            && !PlainReports(d, ObservedNew, rel) && !PlainReports(d, ObservedChanged, rel) && !PlainReports(d, ObservedRemoved, rel)
  {
    FilesMean(gofmt, d, base, present, rel);
    if rel in base && rel in present {
      ComparedMeans(gofmt, d, base, present, rel);
    }
  }

  /** Index, Baseline and tree agree, on paths, roles and bytes. */
  ghost predicate AgreeOnBytes(d: Input, base: Holding, present: Holding) {
    && (forall rel :: NamesFile(d, rel) <==> rel in present && InRole(present[rel], "index"))
    && (forall rel :: rel in present ==>
          && rel in base && (InRole(base[rel], "index") <==> InRole(present[rel], "index"))
          && (InRole(base[rel], "observe") <==> InRole(present[rel], "observe"))
          && Alike(base[rel].data, present[rel].data, d.tolerate))
    && (forall rel :: rel in base && InRole(base[rel], "observe") ==> rel in present)
    && (forall rel :: !NamesLostDirectory(d, rel))
  }

  lemma NoDriftMeans(gofmt: Formatter, d: Input, base: Holding, present: Holding)
    requires Of(gofmt, d, base, present) && NoDrift(d)
    requires forall rel :: rel in present ==> InRole(present[rel], "index") || InRole(present[rel], "observe")
    ensures AgreeOnBytes(d, base, present)
  {
    forall rel
      ensures NamesFile(d, rel) <==> rel in present && InRole(present[rel], "index")
      ensures rel in present ==>
          && rel in base && (InRole(base[rel], "index") <==> InRole(present[rel], "index"))
          && (InRole(base[rel], "observe") <==> InRole(present[rel], "observe"))
          && Alike(base[rel].data, present[rel].data, d.tolerate)
      ensures rel in base && InRole(base[rel], "observe") ==> rel in present
      ensures !NamesLostDirectory(d, rel)
    {
      IndexListsMean(gofmt, d, base, present, rel);
      ObservedListsMean(gofmt, d, base, present, rel);
      NoDriftAt(d, Missing, rel);
      NoDriftAt(d, Orphan, rel);
      NoDriftAt(d, Stale, rel);
      NoDriftAt(d, Unbaselined, rel);
      NoDriftAt(d, ObservedNew, rel);
      NoDriftAt(d, ObservedChanged, rel);
      NoDriftAt(d, ObservedRemoved, rel);
    }
  }

  /** The drift lists are all empty exactly when index, Baseline and tree agree on paths, roles and bytes. */
  lemma DriftIsExactOnBytes(gofmt: Formatter, d: Input, base: Holding, present: Holding)
    requires Of(gofmt, d, base, present)
    requires forall rel :: rel in present ==> InRole(present[rel], "index") || InRole(present[rel], "observe")
    ensures NoDrift(d) <==> AgreeOnBytes(d, base, present)
  {
    if NoDrift(d) {
      NoDriftMeans(gofmt, d, base, present);
    } else {
      var kind, rel :| ManagedReports(d, kind, rel) && kind != LineEndingOnly;
      IndexListsMean(gofmt, d, base, present, rel);
      ObservedListsMean(gofmt, d, base, present, rel);
    }
  }

  // -------------------------------------------------------------------- sorted lists

  /** The order of sort.Strings. */
  predicate Below(a: string, b: string) {
    b != "" && (a == "" || a[0] < b[0] || (a[0] == b[0] && Below(a[1..], b[1..])))
  }

  /** A proper beginning, or the first difference decides. */
  lemma {:induction false} BelowMeans(a: string, b: string)
    ensures Below(a, b) <==> (|a| < |b| && a == b[..|a|]) || exists k: nat :: DifferAt(a, b, k)
  {
    if a != "" && b != "" {
      if a[0] == b[0] {
        BelowMeans(a[1..], b[1..]);
        if |a| < |b| {
          BeginningShifts(a, b);
        }
        forall k: nat ensures DifferAt(a, b, k + 1) <==> DifferAt(a[1..], b[1..], k) {
          DifferenceShifts(a, b, k);
        }
        forall k: nat | DifferAt(a, b, k) ensures k > 0 && DifferAt(a[1..], b[1..], k - 1) {
          DifferenceShifts(a, b, k - 1);
        }
        if k: nat :| DifferAt(a[1..], b[1..], k) {
          assert DifferAt(a, b, k + 1);
        }
      } else {
        assert a[0] < b[0] ==> DifferAt(a, b, 0);
        forall k: nat | DifferAt(a, b, k) ensures k == 0 {
          if k > 0 {
            FirstShared(a, b, k);
          }
        }
        assert |a| < |b| ==> b[..|a|][0] == b[0];
      }
    }
  }

  lemma BeginningShifts(a: string, b: string)
    requires a != "" && b != "" && a[0] == b[0] && |a| < |b|
    ensures a == b[..|a|] <==> a[1..] == b[1..][..|a[1..]|]
  {
    var x, y := a[1..], b[1..];
    assert a == [a[0]] + x && b[..|a|] == [b[0]] + y[..|x|];
    assert a == b[..|a|] ==> a[1..] == b[..|a|][1..];
  }

  /** The first difference is at `k`. */
  predicate DifferAt(a: string, b: string, k: nat) {
    k < |a| && k < |b| && a[..k] == b[..k] && a[k] < b[k]
  }

  lemma FirstShared(a: string, b: string, k: nat)
    requires 0 < k && DifferAt(a, b, k)
    ensures a[0] == b[0]
  {
    assert a[..k][0] == a[0] && b[..k][0] == b[0];
  }

  lemma DifferenceShifts(a: string, b: string, k: nat)
    requires a != "" && b != "" && a[0] == b[0]
    ensures DifferAt(a, b, k + 1) <==> DifferAt(a[1..], b[1..], k)
  {
    if k + 1 <= |a| && k + 1 <= |b| {
      assert a[..k + 1] == [a[0]] + a[1..][..k] && b[..k + 1] == [b[0]] + b[1..][..k];
      assert a[1..][..k] == a[..k + 1][1..] && b[1..][..k] == b[..k + 1][1..];
    }
  }

  lemma {:induction false} BelowTotal(a: string, b: string)
    ensures Below(a, b) || a == b || Below(b, a)
    ensures !(Below(a, b) && (a == b || Below(b, a)))
  {
    if a != "" && b != "" {
      BelowTotal(a[1..], b[1..]);
      assert a == [a[0]] + a[1..] && b == [b[0]] + b[1..];
    }
  }

  lemma {:induction false} BelowTransitive(a: string, b: string, c: string)
    requires Below(a, b) && Below(b, c)
    ensures Below(a, c)
  {
    if a != "" && a[0] == b[0] == c[0] {
      BelowTransitive(a[1..], b[1..], c[1..]);
    }
  }

  predicate Sorted(s: seq<string>) {
    forall i, j :: 0 <= i < j < |s| ==> s[i] == s[j] || Below(s[i], s[j])
  }

  predicate Increasing(s: seq<string>) {
    forall i, j :: 0 <= i < j < |s| ==> Below(s[i], s[j])
  }

  /** The same paths, in whatever order they were found, make the same list. */
  lemma {:induction false} IncreasingIsUnique(s: seq<string>, t: seq<string>)
    requires Increasing(s) && Increasing(t) && forall x :: x in s <==> x in t
    ensures s == t
    decreases |s|
  {
    assert |t| > 0 ==> t[0] in t;
    if s != [] {
      assert s[0] in t && t != [];
      var n, m := |s| - 1, |t| - 1;
      SameLast(s, t);
      forall x ensures x in s[..n] <==> x in t[..m] {
        LastOnce(s, x);
        LastOnce(t, x);
      }
      IncreasingIsUnique(s[..n], t[..m]);
      assert s == s[..n] + [s[n]] && t == t[..m] + [t[m]];
    }
  }

  lemma SameLast(s: seq<string>, t: seq<string>)
    requires Increasing(s) && Increasing(t) && s != [] && t != [] && forall x :: x in s <==> x in t
    ensures s[|s| - 1] == t[|t| - 1]
  {
    var x, y := s[|s| - 1], t[|t| - 1];
    assert y in t && x in s;
    var i :| 0 <= i < |s| && s[i] == y;
    var j :| 0 <= j < |t| && t[j] == x;
    BelowTotal(x, y);
  }

  lemma LastOnce(s: seq<string>, x: string)
    requires Increasing(s) && s != []
    ensures x in s[..|s| - 1] <==> x in s && x != s[|s| - 1]
  {
    if x in s[..|s| - 1] {
      var i :| 0 <= i < |s| - 1 && s[i] == x;
      BelowTotal(x, s[|s| - 1]);
    }
  }

  lemma IncreasingExtends(s: seq<string>, x: string)
    requires Increasing(s) && (s != [] ==> Below(s[|s| - 1], x))
    ensures Increasing(s + [x])
  {
    forall i | 0 <= i < |s| ensures Below(s[i], x) {
      if i < |s| - 1 {
        BelowTransitive(s[i], s[|s| - 1], x);
      }
    }
  }

  function Inserted(x: string, s: seq<string>): (r: seq<string>)
    ensures multiset(r) == multiset(s) + multiset{x}
  {
    if s == [] then [x]
    else if Below(s[0], x) then assert s == [s[0]] + s[1..]; [s[0]] + Inserted(x, s[1..])
    else [x] + s
  }

  /** What sort.Strings leaves. */
  function InOrder(s: seq<string>): (r: seq<string>)
    ensures multiset(r) == multiset(s)
  {
    if s == [] then [] else assert s == [s[0]] + s[1..]; Inserted(s[0], InOrder(s[1..]))
  }

  lemma {:induction false} InsertedSorted(x: string, s: seq<string>)
    requires Sorted(s)
    ensures Sorted(Inserted(x, s))
    decreases |s|
  {
    var r := Inserted(x, s);
    if s != [] {
      if Below(s[0], x) {
        InsertedSorted(x, s[1..]);
        forall j | 1 <= j < |r| ensures r[0] == r[j] || Below(r[0], r[j]) {
          assert r[j] in multiset(Inserted(x, s[1..]));
          assert r[j] in s[1..] || r[j] == x;
        }
      } else {
        BelowTotal(s[0], x);
        forall j | 1 <= j < |r| ensures x == r[j] || Below(x, r[j]) {
          if Below(x, s[0]) && Below(s[0], s[j - 1]) {
            BelowTransitive(x, s[0], s[j - 1]);
          }
        }
      }
    }
  }

  lemma {:induction false} InOrderSorted(s: seq<string>)
    ensures Sorted(InOrder(s))
    decreases |s|
  {
    if s != [] {
      InOrderSorted(s[1..]);
      InsertedSorted(s[0], InOrder(s[1..]));
    }
  }

  /** sortedUnique's compaction, in the storage of its argument. */
  method Compact(a: array<string>) returns (n: nat)
    requires Sorted(a[..])
    modifies a
    ensures n <= a.Length && Increasing(a[..n])
    ensures forall x :: x in a[..n] <==> x in old(a[..])
  {
    n := 0;
    for k := 0 to a.Length
      invariant n <= k && a[k..] == old(a[..])[k..]
      invariant Increasing(a[..n])
      invariant forall x :: x in a[..n] <==> x in old(a[..])[..k]
      invariant k > 0 ==> n > 0 && a[n - 1] == old(a[..])[k - 1]
    {
      assert a[k] == a[k..][0];
      if n == 0 || a[n - 1] != a[k] {
        ghost var kept := a[..n];
        a[n] := a[k];
        n := n + 1;
        assert a[..n] == kept + [old(a[..])[k]];
        assert k > 0 ==> Below(old(a[..])[k - 1], old(a[..])[k]);
        IncreasingExtends(kept, old(a[..])[k]);
      }
      assert old(a[..])[..k + 1] == old(a[..])[..k] + [old(a[..])[k]];
    }
    assert old(a[..])[..a.Length] == old(a[..]);
  }

  method SortedUnique(values: seq<string>) returns (r: seq<string>)
    ensures Increasing(r)
    ensures forall x :: x in r <==> x in values
  {
    var sorted := SortList(values);
    var a := new string[|sorted|](i requires 0 <= i < |sorted| => sorted[i]);
    assert a[..] == sorted;
    var n := Compact(a);
    r := a[..n];
  }

  method SortList(s: seq<string>) returns (r: seq<string>)
    ensures Sorted(r) && multiset(r) == multiset(s)
    ensures forall x :: x in r <==> x in s
  {
    r := InOrder(s);
    InOrderSorted(s);
    assert forall x :: (x in r <==> x in multiset(r)) && (x in s <==> x in multiset(s));
  }

  // -------------------------------------------------------------------- the detectors

  function Add(r: Result, kind: Kind, rel: string): Result {
    match kind
    case Missing => r.(missing := r.missing + [rel])
    case Orphan => r.(orphan := r.orphan + [rel])
    case Stale => r.(stale := r.stale + [rel])
    case Unbaselined => r.(unbaselined := r.unbaselined + [rel])
    case LineEndingOnly => r.(lineEndingOnly := r.lineEndingOnly + [rel])
    case ObservedNew => r.(observedNew := r.observedNew + [rel])
    case ObservedChanged => r.(observedChanged := r.observedChanged + [rel])
    case ObservedRemoved => r.(observedRemoved := r.observedRemoved + [rel])
  }

  lemma AddHas(r: Result, kind: Kind, rel: string)
    ensures forall k, x :: x in Get(Add(r, kind, rel), k) <==> x in Get(r, k) || (k == kind && x == rel)
  {
  }

  /** No path twice. */
  predicate Once(s: seq<string>) { forall i, j :: 0 <= i < j < |s| ==> s[i] != s[j] }

  predicate AllOnce(r: Result) { forall k :: Once(Get(r, k)) }

  lemma AddOnce(r: Result, kind: Kind, rel: string)
    ensures AllOnce(r) && (forall k :: rel !in Get(r, k)) ==> AllOnce(Add(r, kind, rel))
  {
    if AllOnce(r) && forall k :: rel !in Get(r, k) {
      forall k ensures Once(Get(Add(r, kind, rel), k)) {
        assert Once(Get(r, k)) && rel !in Get(r, k);
        assert Get(Add(r, kind, rel), k) == if k == kind then Get(r, k) + [rel] else Get(r, k);
      }
    }
  }

  lemma {:induction false} OnceCounts(s: seq<string>)
    ensures Once(s) <==> forall x :: multiset(s)[x] <= 1
    decreases |s|
  {
    if s != [] {
      var n := |s| - 1;
      OnceCounts(s[..n]);
      assert s == s[..n] + [s[n]];
      assert Once(s) <==> Once(s[..n]) && s[n] !in s[..n];
      assert forall x :: multiset(s)[x] == multiset(s[..n])[x] + (if x == s[n] then 1 else 0);
      assert s[n] in s[..n] <==> s[n] in multiset(s[..n]);
    }
  }

  lemma SortedOnce(s: seq<string>, r: seq<string>)
    requires Sorted(r) && multiset(r) == multiset(s) && Once(s)
    ensures Increasing(r)
  {
    OnceCounts(s);
    OnceCounts(r);
  }

  /** How often the sections list a path. */
  function Times(sections: seq<seq<string>>, rel: string): nat {
    if sections == [] then 0 else Times(sections[..|sections| - 1], rel) + multiset(sections[|sections| - 1])[rel]
  }

  const EMPTY := Result([], [], [], [], [], [], [], [])

  /** What one section adds to the index files and directories. */
  method SectionEntries(d: Input, section: seq<string>, files0: set<string>, directories0: seq<string>)
    returns (files: set<string>, directories: seq<string>)
    ensures forall rel :: rel in files <==>
      rel in files0 || (rel != "" && !d.excluded(rel) && !IsDirectory(rel) && rel in section)
    ensures forall rel :: rel in directories <==>
      rel in directories0 || (rel != "" && !d.excluded(rel) && IsDirectory(rel) && rel in section)
    ensures forall rel :: IsDirectory(rel) && !d.excluded(rel) ==>
      multiset(directories)[rel] == multiset(directories0)[rel] + multiset(section)[rel]
  {
    files, directories := files0, directories0;
    for j := 0 to |section|
      invariant forall rel :: rel in files <==>
        rel in files0 || (rel != "" && !d.excluded(rel) && !IsDirectory(rel) && rel in section[..j])
      invariant forall rel :: rel in directories <==>
        rel in directories0 || (rel != "" && !d.excluded(rel) && IsDirectory(rel) && rel in section[..j])
      invariant forall rel :: IsDirectory(rel) && !d.excluded(rel) ==>
        multiset(directories)[rel] == multiset(directories0)[rel] + multiset(section[..j])[rel]
    {
      var rel := section[j];
      assert section[..j + 1] == section[..j] + [rel];
      if rel != "" && !d.excluded(rel) {
        if IsDirectory(rel) {
          directories := directories + [rel];
        } else {
          files := files + {rel};
        }
      }
    }
    assert section[..|section|] == section;
  }

  /** The index files and directories of a document. */
  method Entries(d: Input) returns (files: set<string>, directories: seq<string>)
    ensures forall rel :: rel in files <==> Indexed(d, rel)
    ensures forall rel :: rel in directories <==> Listed(d, rel) && IsDirectory(rel)
    ensures forall rel :: IsDirectory(rel) && !d.excluded(rel) ==> multiset(directories)[rel] == Times(d.sections, rel)
  {
    files, directories := {}, [];
    for i := 0 to |d.sections|
      invariant forall rel :: rel in files <==>
        rel != "" && !d.excluded(rel) && !IsDirectory(rel) && exists k :: 0 <= k < i && rel in d.sections[k]
      invariant forall rel :: rel in directories <==>
        rel != "" && !d.excluded(rel) && IsDirectory(rel) && exists k :: 0 <= k < i && rel in d.sections[k]
      invariant forall rel :: IsDirectory(rel) && !d.excluded(rel) ==> multiset(directories)[rel] == Times(d.sections[..i], rel)
    {
      files, directories := SectionEntries(d, d.sections[i], files, directories);
      assert d.sections[..i + 1][..i] == d.sections[..i];
    }
    assert d.sections[..|d.sections|] == d.sections;
  }

  /** One path of the snapshot in DetectManagedScope. */
  method JudgeManaged(d: Input, files: set<string>, rel: string, r0: Result) returns (r: Result)
    requires rel in d.snapshot && forall x :: x in files <==> Indexed(d, x)
    ensures forall k, x :: x in Get(r, k) <==> x in Get(r0, k) || (x == rel && FromSnapshot(d, k, rel))
  {
    r := r0;
    var current := d.snapshot[rel];
    var existed := d.base.Some? && rel in d.base.value;
    if EffectiveRole(current) == INDEX {
      if rel !in files {
        AddHas(r, Missing, rel);
        r := Add(r, Missing, rel);
      }
      if !existed || EffectiveRole(d.base.value[rel]) != INDEX {
        AddHas(r, Unbaselined, rel);
        return Add(r, Unbaselined, rel);
      }
      var (equal, lineEndingOnly) := Equivalent(d.base.value[rel], current, d.tolerate);
      if !equal {
        AddHas(r, Stale, rel);
        r := Add(r, Stale, rel);
      } else if lineEndingOnly {
        AddHas(r, LineEndingOnly, rel);
        r := Add(r, LineEndingOnly, rel);
      }
    } else if EffectiveRole(current) == OBSERVE {
      if rel in files {
        AddHas(r, Orphan, rel);
        r := Add(r, Orphan, rel);
      }
      if !existed || EffectiveRole(d.base.value[rel]) != OBSERVE {
        AddHas(r, ObservedNew, rel);
        return Add(r, ObservedNew, rel);
      }
      var (equal, _) := Equivalent(d.base.value[rel], current, d.tolerate);
      if !equal {
        AddHas(r, ObservedChanged, rel);
        r := Add(r, ObservedChanged, rel);
      }
    }
  }

  method JudgeSnapshot(d: Input, files: set<string>) returns (r: Result)
    requires forall x :: x in files <==> Indexed(d, x)
    ensures forall k, x :: x in Get(r, k) <==> x in d.snapshot && FromSnapshot(d, k, x)
  {
    r := EMPTY;
    forall k ensures Get(r, k) == [] {}
    var rest := d.snapshot.Keys;
    while rest != {}
      invariant rest <= d.snapshot.Keys
      invariant forall k, x :: x in Get(r, k) <==> x in d.snapshot && x !in rest && FromSnapshot(d, k, x)
      decreases |rest|
    {
      var rel :| rel in rest;
      r := JudgeManaged(d, files, rel, r);
      rest := rest - {rel};
    }
  }

  /** One record of the Baseline in DetectManagedScope. */
  method JudgeRecord(d: Input, files: set<string>, rel: string, r0: Result) returns (r: Result)
    requires d.base.Some? && rel in d.base.value && forall x :: x in files <==> Indexed(d, x)
    ensures forall k, x :: x in Get(r, k) <==> x in Get(r0, k) || (x == rel && FromBaseline(d, k, rel))
  {
    if rel in d.snapshot {
      return r0;
    }
    if EffectiveRole(d.base.value[rel]) == OBSERVE {
      AddHas(r0, ObservedRemoved, rel);
      return Add(r0, ObservedRemoved, rel);
    }
    if rel in files {
      AddHas(r0, Orphan, rel);
      return Add(r0, Orphan, rel);
    }
    return r0;
  }

  method JudgeBaseline(d: Input, files: set<string>, r0: Result) returns (r: Result)
    requires forall x :: x in files <==> Indexed(d, x)
    ensures forall k, x :: x in Get(r, k) <==>
      (x in Get(r0, k) || (d.base.Some? && x in d.base.value && FromBaseline(d, k, x)))
  {
    r := r0;
    if d.base.None? {
      return;
    }
    var rest := d.base.value.Keys;
    while rest != {}
      invariant rest <= d.base.value.Keys
      invariant forall k, x :: x in Get(r, k) <==>
        x in Get(r0, k) || (x in d.base.value && x !in rest && FromBaseline(d, k, x))
      decreases |rest|
    {
      var rel :| rel in rest;
      r := JudgeRecord(d, files, rel, r);
      rest := rest - {rel};
    }
  }

  /** The directories that are gone, as both detectors end. */
  method JudgeDirectories(d: Input, directories: seq<string>) returns (lost: seq<string>)
    requires forall x :: x in directories <==> Listed(d, x) && IsDirectory(x)
    ensures forall x :: x in lost <==> LostDirectory(d, x)
    ensures forall x :: x !in d.directories ==> multiset(lost)[x] == multiset(directories)[x]
  {
    lost := [];
    for i := 0 to |directories|
      invariant forall x :: x in lost <==> x in directories[..i] && x !in d.directories
      invariant forall x :: x !in d.directories ==> multiset(lost)[x] == multiset(directories[..i])[x]
    {
      assert directories[..i + 1] == directories[..i] + [directories[i]];
      if directories[i] !in d.directories {
        lost := lost + [directories[i]];
      }
    }
    assert directories[..|directories|] == directories;
  }

  method JudgeIndex(d: Input, files: set<string>) returns (gone: seq<string>)
    requires forall x :: x in files <==> Indexed(d, x)
    ensures forall x :: x in gone <==> Indexed(d, x) && x !in d.snapshot
  {
    gone := [];
    var rest := files;
    while rest != {}
      invariant rest <= files
      invariant forall x :: x in gone <==> x in files && x !in rest && x !in d.snapshot
      decreases |rest|
    {
      var rel :| rel in rest;
      rest := rest - {rel};
      if rel !in d.snapshot {
        gone := gone + [rel];
      }
    }
  }

  method SortAll(r0: Result) returns (r: Result)
    ensures forall k :: Increasing(Get(r, k))
    ensures forall k, x :: x in Get(r, k) <==> x in Get(r0, k)
  {
    var missing := SortedUnique(r0.missing);
    var orphan := SortedUnique(r0.orphan);
    var stale := SortedUnique(r0.stale);
    var unbaselined := SortedUnique(r0.unbaselined);
    var lineEndingOnly := SortedUnique(r0.lineEndingOnly);
    var observedNew := SortedUnique(r0.observedNew);
    var observedChanged := SortedUnique(r0.observedChanged);
    var observedRemoved := SortedUnique(r0.observedRemoved);
    r := Result(missing, orphan, stale, unbaselined, lineEndingOnly, observedNew, observedChanged, observedRemoved);
  }

  /** DetectManagedScope: every list is duplicate-free, in order, and holds exactly what it should; with valid
      roles, nothing but line-ending notes come back exactly when index, Baseline and tree agree. */
  method DetectManagedScope(d: Input) returns (r: Result)
    ensures forall k :: Increasing(Get(r, k))
    ensures forall k, x :: x in Get(r, k) <==> ManagedReports(d, k, x)
    ensures ValidRoles(d.snapshot) ==> ((forall k :: k != LineEndingOnly ==> Get(r, k) == []) <==> Agree(d))
  {
    var files, directories := Entries(d);
    var r1 := JudgeSnapshot(d, files);
    var r2 := JudgeBaseline(d, files, r1);
    var r3 := JudgeOrphans(d, files, directories, r2);
    r := SortAll(r3);
    forall k, x ensures x in Get(r, k) <==> ManagedReports(d, k, x) {
      assert x in Get(r, k) <==> x in Get(r2, k) || FromIndex(d, k, x);
      assert x in Get(r2, k) <==> x in Get(r1, k) || (d.base.Some? && x in d.base.value && FromBaseline(d, k, x));
      assert x in Get(r1, k) <==> x in d.snapshot && FromSnapshot(d, k, x);
    }
    EmptyMeansNoDrift(d, r);
    if ValidRoles(d.snapshot) {
      DriftIsExact(d);
    }
  }

  method JudgeOrphans(d: Input, files: set<string>, directories: seq<string>, r0: Result) returns (r: Result)
    requires forall x :: x in files <==> Indexed(d, x)
    requires forall x :: x in directories <==> Listed(d, x) && IsDirectory(x)
    ensures forall k, x :: x in Get(r, k) <==> x in Get(r0, k) || FromIndex(d, k, x)
  {
    var gone := JudgeIndex(d, files);
    var lost := JudgeDirectories(d, directories);
    r := r0.(orphan := r0.orphan + gone + lost);
  }

  lemma EmptyMeansNoDrift(d: Input, r: Result)
    requires forall k, x :: x in Get(r, k) <==> ManagedReports(d, k, x)
    ensures (forall k :: k != LineEndingOnly ==> Get(r, k) == []) <==> NoDrift(d)
  {
    forall k | |Get(r, k)| > 0 ensures Get(r, k)[0] in Get(r, k) {}
  }

  /** What DetectWith finds of an index file. */
  predicate Finding(d: Input, kind: Kind, rel: string) {
    if rel in d.snapshot then FromFile(d, kind, rel) else kind == Orphan
  }

  /** The lists hold, each path once, exactly what is found of the files in `done`. */
  ghost predicate Found(d: Input, r: Result, done: set<string>) {
    && AllOnce(r)
    && forall k, x :: x in Get(r, k) <==> x in done && Finding(d, k, x)
  }

  lemma FoundOneMore(d: Input, r: Result, done: set<string>, rel: string, kind: Kind)
    requires Found(d, r, done) && rel !in done && forall k :: Finding(d, k, rel) <==> k == kind
    ensures Found(d, Add(r, kind, rel), done + {rel})
  {
    forall k ensures rel !in Get(r, k) {
      assert rel in Get(r, k) <==> rel in done && Finding(d, k, rel);
    }
    AddOnce(r, kind, rel);
    var r' := Add(r, kind, rel);
    forall k, x ensures x in Get(r', k) <==> x in done + {rel} && Finding(d, k, x) {
      AddHas(r, kind, rel);
      assert x in Get(r, k) <==> x in done && Finding(d, k, x);
    }
  }

  lemma NothingFound(d: Input)
    ensures Found(d, EMPTY, {})
  {
    forall k ensures Get(EMPTY, k) == [] {}
  }

  /** One index file of DetectWith. */
  method JudgeFile(d: Input, rel: string, r0: Result, ghost done: set<string>) returns (r: Result)
    requires Found(d, r0, done) && rel !in done
    ensures Found(d, r, done + {rel})
  {
    if rel !in d.snapshot {
      FoundOneMore(d, r0, done, rel, Orphan);
      return Add(r0, Orphan, rel);
    }
    if d.base.None? || rel !in d.base.value {
      FoundOneMore(d, r0, done, rel, Unbaselined);
      return Add(r0, Unbaselined, rel);
    }
    var (equal, lineEndingOnly) := Equivalent(d.base.value[rel], d.snapshot[rel], d.tolerate);
    if equal {
      if lineEndingOnly {
        FoundOneMore(d, r0, done, rel, LineEndingOnly);
        return Add(r0, LineEndingOnly, rel);
      }
      assert forall k :: !Finding(d, k, rel);
      return r0;
    }
    assert !lineEndingOnly;
    FoundOneMore(d, r0, done, rel, Stale);
    return Add(r0, Stale, rel);
  }

  method JudgeFiles(d: Input, files: set<string>) returns (r: Result)
    ensures Found(d, r, files)
  {
    r := EMPTY;
    NothingFound(d);
    var rest := files;
    assert files - rest == {};
    while rest != {}
      invariant rest <= files && Found(d, r, files - rest)
      decreases |rest|
    {
      var rel :| rel in rest;
      r := JudgeFile(d, rel, r, files - rest);
      assert files - rest + {rel} == files - (rest - {rel});
      rest := rest - {rel};
    }
    assert files - rest == files;
  }

  method JudgeMissing(d: Input, files: set<string>) returns (missing: seq<string>)
    requires forall x :: x in files <==> Indexed(d, x)
    ensures forall x :: x in missing <==> PlainReports(d, Missing, x)
    ensures Once(missing)
  {
    missing := [];
    var rest := d.snapshot.Keys;
    while rest != {}
      invariant rest <= d.snapshot.Keys
      invariant forall x :: x in missing <==> x in d.snapshot && x !in rest && x !in files
      invariant Once(missing)
      decreases |rest|
    {
      var rel :| rel in rest;
      rest := rest - {rel};
      if rel !in files {
        missing := missing + [rel];
      }
    }
  }

  /** DetectWith: sorted lists of exactly the plain findings, each once, except that a lost directory is an orphan
      as often as the index lists it. */
  method DetectWith(d: Input) returns (r: Result)
    ensures forall k :: Sorted(Get(r, k)) && (k != Orphan ==> Increasing(Get(r, k)))
    ensures forall k, x :: x in Get(r, k) <==> PlainReports(d, k, x)
    ensures forall x :: x in r.orphan ==>
              multiset(r.orphan)[x] == if x != "" && x[|x| - 1] == '/' then Times(d.sections, x) else 1
  {
    var files, directories := Entries(d);
    var missing := JudgeMissing(d, files);
    var judged := JudgeFiles(d, files);
    var lost := JudgeDirectories(d, directories);
    PlainLists(d, judged, files);
    assert Once(Get(judged, Orphan));
    OrphansCounted(d, judged.orphan, lost, directories);
    r := SortPlain(missing, judged, lost);
    assert forall k, x :: x in Get(r, k) <==> PlainReports(d, k, x);
  }

  method SortPlain(missing: seq<string>, judged: Result, lost: seq<string>) returns (r: Result)
    requires Once(missing) && AllOnce(judged)
    ensures forall k :: Sorted(Get(r, k)) && (k != Orphan ==> Increasing(Get(r, k)))
    ensures forall x :: (x in r.missing <==> x in missing) && (x in r.orphan <==> x in judged.orphan + lost)
                     && (x in r.stale <==> x in judged.stale) && (x in r.unbaselined <==> x in judged.unbaselined)
                     && (x in r.lineEndingOnly <==> x in judged.lineEndingOnly)
    ensures r.observedNew == [] && r.observedChanged == [] && r.observedRemoved == []
    ensures multiset(r.orphan) == multiset(judged.orphan + lost)
  {
    assert Once(Get(judged, Stale)) && Once(Get(judged, Unbaselined)) && Once(Get(judged, LineEndingOnly));
    var sortedMissing := SortOnce(missing);
    var orphan := SortList(judged.orphan + lost);
    var stale := SortOnce(judged.stale);
    var unbaselined := SortOnce(judged.unbaselined);
    var lineEndingOnly := SortOnce(judged.lineEndingOnly);
    r := Result(sortedMissing, orphan, stale, unbaselined, lineEndingOnly, [], [], []);
  }

  method SortOnce(s: seq<string>) returns (r: seq<string>)
    requires Once(s)
    ensures Sorted(r) && Increasing(r)
    ensures forall x :: x in r <==> x in s
  {
    r := SortList(s);
    SortedOnce(s, r);
  }

  lemma OrphansCounted(d: Input, gone: seq<string>, lost: seq<string>, directories: seq<string>)
    requires Once(gone) && forall x :: x in gone ==> Indexed(d, x)
    requires forall x :: x in lost <==> LostDirectory(d, x)
    requires forall x :: x !in d.directories ==> multiset(lost)[x] == multiset(directories)[x]
    requires forall rel :: IsDirectory(rel) && !d.excluded(rel) ==> multiset(directories)[rel] == Times(d.sections, rel)
    ensures forall x :: x in gone + lost ==>
              multiset(gone + lost)[x] == if x != "" && x[|x| - 1] == '/' then Times(d.sections, x) else 1
  {
    OnceCounts(gone);
    forall x | x in gone + lost
      ensures multiset(gone + lost)[x] == if x != "" && x[|x| - 1] == '/' then Times(d.sections, x) else 1
    {
      assert multiset(gone + lost)[x] == multiset(gone)[x] + multiset(lost)[x];
      assert x in gone <==> x in multiset(gone);
      assert x in lost <==> x in multiset(lost);
    }
  }

  lemma PlainLists(d: Input, r: Result, files: set<string>)
    requires Found(d, r, files) && forall x :: x in files <==> Indexed(d, x)
    ensures forall x :: (x in r.stale <==> PlainReports(d, Stale, x))
                     && (x in r.unbaselined <==> PlainReports(d, Unbaselined, x))
                     && (x in r.lineEndingOnly <==> PlainReports(d, LineEndingOnly, x))
                     && (x in r.orphan || LostDirectory(d, x) <==> PlainReports(d, Orphan, x))
                     && (x in r.orphan ==> Indexed(d, x))
  {
    assert Get(r, Stale) == r.stale && Get(r, Unbaselined) == r.unbaselined;
    assert Get(r, LineEndingOnly) == r.lineEndingOnly && Get(r, Orphan) == r.orphan;
    forall x
      ensures (x in r.stale <==> PlainReports(d, Stale, x)) && (x in r.unbaselined <==> PlainReports(d, Unbaselined, x))
      ensures (x in r.lineEndingOnly <==> PlainReports(d, LineEndingOnly, x))
      ensures (x in r.orphan || LostDirectory(d, x) <==> PlainReports(d, Orphan, x)) && (x in r.orphan ==> Indexed(d, x))
    {
      assert forall k :: x in Get(r, k) <==> Indexed(d, x) && Finding(d, k, x);
    }
  }

}
