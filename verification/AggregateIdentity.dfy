/** The identities of internal/businesssource/manifest.go: fields hashed one after the other, each ended by a
    NUL byte. A running hash is what has been written to it. */
module AggregateIdentity {
  const VERSION := "business-source-manifest/v1"
  const ALGORITHM := "sha256-nul-domain-separated-v1"
  const CURATION := "business-source-curation/v1"

  predicate NulFree(field: string) { '\0' !in field }

  predicate NulFreeAll(fields: seq<string>) { forall i :: 0 <= i < |fields| ==> NulFree(fields[i]) }

  function Stream(fields: seq<string>): string {
    if fields == [] then [] else fields[0] + "\0" + Stream(fields[1..])
  }

  lemma ShorterEndsInside(f: string, rest: string, g: string, tail: string)
    requires f + "\0" + rest == g + "\0" + tail && |f| < |g|
    ensures '\0' in g
  {
    assert (f + "\0" + rest)[|f|] == '\0' && (g + "\0" + tail)[|f|] == g[|f|];
  }

  lemma FirstField(f: string, rest: string, g: string, tail: string)
    requires NulFree(f) && NulFree(g) && f + "\0" + rest == g + "\0" + tail
    ensures f == g && rest == tail
  {
    var s := f + "\0" + rest;
    if |f| < |g| {
      ShorterEndsInside(f, rest, g, tail);
    } else if |g| < |f| {
      ShorterEndsInside(g, tail, f, rest);
    }
    assert f == s[..|f|] && g == s[..|g|];
    assert rest == s[|f| + 1..] && tail == s[|g| + 1..];
  }

  /** However many fields there are, NUL-free fields can be read back from the stream. */
  lemma {:induction false} StreamInjective(a: seq<string>, b: seq<string>)
    requires NulFreeAll(a) && NulFreeAll(b) && Stream(a) == Stream(b)
    ensures a == b
    decreases |a|
  {
    if a != [] && b != [] {
      FirstField(a[0], Stream(a[1..]), b[0], Stream(b[1..]));
      StreamInjective(a[1..], b[1..]);
      assert a == [a[0]] + a[1..] && b == [b[0]] + b[1..];
    }
  }

  lemma {:induction false} StreamConcat(a: seq<string>, b: seq<string>)
    ensures Stream(a + b) == Stream(a) + Stream(b)
    decreases |a|
  {
    if a == [] {
      assert a + b == b;
    } else {
      assert (a + b)[1..] == a[1..] + b;
      StreamConcat(a[1..], b);
    }
  }

  lemma StreamLast(a: seq<string>, f: string)
    ensures Stream(a + [f]) == Stream(a) + f + "\0"
  {
    StreamConcat(a, [f]);
    assert [f][1..] == [];
  }

  /** A NUL inside a field is what makes two selections look alike. */
  lemma NulCollides(x: string, y: string, before: seq<string>)
    ensures before + [x + "\0" + y] != before + [x, y]
    ensures Stream(before + [x + "\0" + y]) == Stream(before + [x, y])
  {
    StreamLast(before, x + "\0" + y);
    assert before + [x, y] == before + [x] + [y];
    StreamLast(before, x);
    StreamLast(before + [x], y);
    assert |before + [x + "\0" + y]| != |before + [x, y]|;
  }

  // -------------------------------------------------------------------- decimal sizes

  function Digit(d: nat): char
    requires d < 10
  {
    '0' + d as char
  }

  function Digits(n: nat): (r: string)
    ensures r != [] && forall i :: 0 <= i < |r| ==> '0' <= r[i] <= '9'
  {
    if n < 10 then [Digit(n)] else Digits(n / 10) + [Digit(n % 10)]
  }

  /** fmt.Sprint of an int64. */
  function Decimal(n: int): string { if n < 0 then "-" + Digits(-n) else Digits(n) }

  function Value(digits: string): int {
    if digits == [] then 0 else Value(digits[..|digits| - 1]) * 10 + (digits[|digits| - 1] as int - '0' as int)
  }

  lemma {:induction false} DigitsValue(n: nat)
    ensures Value(Digits(n)) == n
  {
    if n >= 10 {
      DigitsValue(n / 10);
      assert Digits(n)[..|Digits(n)| - 1] == Digits(n / 10);
    }
  }

  function Parsed(s: string): int {
    if s != "" && s[0] == '-' then -Value(s[1..]) else Value(s)
  }

  /** A size is read back from its decimal form. */
  lemma DecimalParses(n: int)
    ensures NulFree(Decimal(n)) && Parsed(Decimal(n)) == n
  {
    var digits := Digits(if n < 0 then -n else n);
    DigitsValue(if n < 0 then -n else n);
    assert Decimal(n) == if n < 0 then "-" + digits else digits;
    assert n < 0 ==> ("-" + digits)[1..] == digits;
    assert digits[0] != '-';
  }

  // -------------------------------------------------------------------- the aggregate

  datatype Record = Record(path: string, sha256: string, size: int, policy: string)

  datatype Manifest = Manifest(
    inclusion: string,
    rules: string,
    curation: string,
    gitHead: string,
    policy: string,
    files: seq<Record>)

  function HeaderFields(m: Manifest): seq<string> {
    [VERSION, ALGORITHM, m.inclusion, m.rules, m.curation, m.gitHead, m.policy]
  }

  function RecordFields(r: Record): seq<string> { [r.path, r.sha256, Decimal(r.size), r.policy] }

  function FileFields(files: seq<Record>): (r: seq<string>)
    ensures |r| == 4 * |files|
  {
    if files == [] then [] else FileFields(files[..|files| - 1]) + RecordFields(files[|files| - 1])
  }

  function Fields(m: Manifest): seq<string> { HeaderFields(m) + FileFields(m.files) }

  predicate NulFreeRecord(r: Record) { NulFree(r.path) && NulFree(r.sha256) && NulFree(r.policy) }

  predicate NulFreeManifest(m: Manifest) {
    && NulFree(m.inclusion) && NulFree(m.rules) && NulFree(m.curation) && NulFree(m.gitHead) && NulFree(m.policy)
    && forall i :: 0 <= i < |m.files| ==> NulFreeRecord(m.files[i])
  }

  /** aggregate: the running hash after every write. */
  method Aggregate(m: Manifest) returns (hashed: string)
    ensures hashed == Stream(Fields(m))
  {
    var written := WriteAll([], HeaderFields(m));
    assert HeaderFields(m) + FileFields(m.files[..0]) == HeaderFields(m);
    for i := 0 to |m.files|
      invariant written == Stream(HeaderFields(m) + FileFields(m.files[..i]))
    {
      var file := m.files[i];
      ghost var fields := HeaderFields(m) + FileFields(m.files[..i]);
      assert m.files[..i + 1][..i] == m.files[..i];
      written := WriteAll(written, RecordFields(file));
      StreamConcat(fields, RecordFields(file));
      assert fields + RecordFields(file) == HeaderFields(m) + FileFields(m.files[..i + 1]);
    }
    assert m.files[..|m.files|] == m.files;
    return written;
  }

  method WriteAll(before: string, fields: seq<string>) returns (written: string)
    ensures written == before + Stream(fields)
  {
    written := before;
    for i := 0 to |fields|
      invariant written == before + Stream(fields[..i])
    {
      StreamLast(fields[..i], fields[i]);
      assert fields[..i + 1] == fields[..i] + [fields[i]];
      written := written + fields[i];
      written := written + "\0";
    }
    assert fields[..|fields|] == fields;
  }

  lemma {:induction false} FileFieldsNulFree(files: seq<Record>)
    requires forall i :: 0 <= i < |files| ==> NulFreeRecord(files[i])
    ensures NulFreeAll(FileFields(files))
    decreases |files|
  {
    if files != [] {
      var n := |files| - 1;
      FileFieldsNulFree(files[..n]);
      DecimalParses(files[n].size);
      assert NulFreeRecord(files[n]);
    }
  }

  lemma {:induction false} FileFieldsInjective(a: seq<Record>, b: seq<Record>)
    requires FileFields(a) == FileFields(b)
    ensures a == b
    decreases |a|
  {
    if a != [] {
      var n := |a| - 1;
      assert |b| == |a|;
      var x, y := FileFields(a[..n]), FileFields(b[..n]);
      LastFour(x, RecordFields(a[n]), y, RecordFields(b[n]));
      FileFieldsInjective(a[..n], b[..n]);
      RecordInjective(a[n], b[n]);
      assert a == a[..n] + [a[n]] && b == b[..n] + [b[n]];
    }
  }

  lemma LastFour(a: seq<string>, x: seq<string>, b: seq<string>, y: seq<string>)
    requires |a| == |b| && a + x == b + y
    ensures a == b && x == y
  {
    assert a == (a + x)[..|a|] && b == (b + y)[..|b|];
    assert x == (a + x)[|a|..] && y == (b + y)[|b|..];
  }

  lemma RecordInjective(r: Record, s: Record)
    requires RecordFields(r) == RecordFields(s)
    ensures r == s
  {
    var x, y := RecordFields(r), RecordFields(s);
    assert x[0] == y[0] && x[1] == y[1] && x[2] == y[2] && x[3] == y[3];
    DecimalParses(r.size);
    DecimalParses(s.size);
  }

  /** Two NUL-free manifests have the same aggregate exactly when every bound field and every ordered file
      record is the same. */
  lemma AggregateInjective(a: Manifest, b: Manifest)
    requires NulFreeManifest(a) && NulFreeManifest(b)
    ensures Stream(Fields(a)) == Stream(Fields(b)) <==> a == b
  {
    if Stream(Fields(a)) == Stream(Fields(b)) {
      FileFieldsNulFree(a.files);
      FileFieldsNulFree(b.files);
      HeaderNulFree(a);
      HeaderNulFree(b);
      StreamInjective(Fields(a), Fields(b));
      LastFour(HeaderFields(a), FileFields(a.files), HeaderFields(b), FileFields(b.files));
      FileFieldsInjective(a.files, b.files);
      HeaderInjective(a, b);
    }
  }

  lemma HeaderNulFree(m: Manifest)
    requires NulFreeManifest(m)
    ensures NulFreeAll(HeaderFields(m))
  {
  }

  lemma HeaderInjective(a: Manifest, b: Manifest)
    requires HeaderFields(a) == HeaderFields(b)
    ensures b == a.(files := b.files)
  {
    var x, y := HeaderFields(a), HeaderFields(b);
    assert x[2] == y[2] && x[3] == y[3] && x[4] == y[4] && x[5] == y[5] && x[6] == y[6];
  }

  // -------------------------------------------------------------------- the curation identity

  function CurationFields(asset: string, patterns: seq<string>): seq<string> {
    [CURATION, asset] + patterns
  }

  /** curationSelectionIdentity. */
  method CurationSelectionIdentity(asset: string, patterns: seq<string>) returns (hashed: string)
    ensures hashed == Stream(CurationFields(asset, patterns))
  {
    var written := WriteAll([], [CURATION, asset] + patterns);
    return written;
  }

  /** Patterns of any number: the same identity exactly when the asset and the patterns, in order, are the same. */
  lemma CurationInjective(asset: string, patterns: seq<string>, asset': string, patterns': seq<string>)
    requires NulFree(asset) && NulFreeAll(patterns) && NulFree(asset') && NulFreeAll(patterns')
    ensures Stream(CurationFields(asset, patterns)) == Stream(CurationFields(asset', patterns'))
            <==> asset == asset' && patterns == patterns'
  {
    var x, y := CurationFields(asset, patterns), CurationFields(asset', patterns');
    if Stream(x) == Stream(y) {
      StreamInjective(x, y);
      LastFour([CURATION, asset], patterns, [CURATION, asset'], patterns');
      assert x[1] == y[1];
    }
  }

  /** With a NUL in a pattern the identity no longer tells one pattern from two. */
  lemma CurationCollides(asset: string, x: string, y: string)
    ensures Stream(CurationFields(asset, [x + "\0" + y])) == Stream(CurationFields(asset, [x, y]))
  {
    NulCollides(x, y, [CURATION, asset]);
  }

  // -------------------------------------------------------------------- where each field stands

  lemma StreamCons(f: string, rest: seq<string>)
    ensures Stream([f] + rest) == f + "\0" + Stream(rest)
  {
    assert ([f] + rest)[1..] == rest;
  }

  lemma StreamOf7(a: string, b: string, c: string, d: string, e: string, f: string, g: string)
    ensures Stream([a, b, c, d, e, f, g]) ==
            a + "\0" + (b + "\0" + (c + "\0" + (d + "\0" + (e + "\0" + (f + "\0" + (g + "\0" + ""))))))
  {
    StreamCons(a, [b, c, d, e, f, g]);
    StreamCons(b, [c, d, e, f, g]);
    StreamOf3(c, d, e, [f, g]);
    StreamCons(f, [g]);
    StreamCons(g, []);
    assert [a, b, c, d, e, f, g] == [a] + [b, c, d, e, f, g] && [b, c, d, e, f, g] == [b] + [c, d, e, f, g];
    assert [c, d, e, f, g] == [c, d, e] + [f, g] && [f, g] == [f] + [g] && [g] == [g] + [];
  }

  lemma StreamOf3(c: string, d: string, e: string, rest: seq<string>)
    ensures Stream([c, d, e] + rest) == c + "\0" + (d + "\0" + (e + "\0" + Stream(rest)))
  {
    StreamCons(c, [d, e] + rest);
    StreamCons(d, [e] + rest);
    StreamCons(e, rest);
    assert [c, d, e] + rest == [c] + ([d, e] + rest) && [d, e] + rest == [d] + ([e] + rest);
  }

  /** The stream starts with the format, the algorithm and the five bound identities, in this order, ... */
  lemma HeaderLayout(m: Manifest)
    requires m.files == []
    ensures Stream(Fields(m)) ==
            "business-source-manifest/v1" + "\0" + ("sha256-nul-domain-separated-v1" + "\0" + (m.inclusion + "\0"
            + (m.rules + "\0" + (m.curation + "\0" + (m.gitHead + "\0" + (m.policy + "\0" + ""))))))
  {
    assert Fields(m) == HeaderFields(m);
    StreamOf7("business-source-manifest/v1", "sha256-nul-domain-separated-v1", m.inclusion, m.rules, m.curation, m.gitHead, m.policy);
  }

  /** ... and every file adds its path, digest, size and policy at the end. */
  lemma FileLayout(m: Manifest, r: Record)
    ensures Stream(Fields(m.(files := m.files + [r]))) ==
            Stream(Fields(m)) + (r.path + "\0" + (r.sha256 + "\0" + (Decimal(r.size) + "\0" + (r.policy + "\0" + ""))))
  {
    var files := m.files + [r];
    assert files[..|files| - 1] == m.files && files[|files| - 1] == r;
    assert Fields(m.(files := files)) == Fields(m) + RecordFields(r);
    StreamConcat(Fields(m), RecordFields(r));
    StreamOf3(r.path, r.sha256, Decimal(r.size), [r.policy]);
    assert RecordFields(r) == [r.path, r.sha256, Decimal(r.size)] + [r.policy];
    StreamCons(r.policy, []);
    assert [r.policy] == [r.policy] + [];
  }

  /** The curation identity starts with its format and the asset; every pattern is added at the end. */
  lemma CurationLayout(asset: string, patterns: seq<string>, p: string)
    ensures Stream(CurationFields(asset, [])) == "business-source-curation/v1" + "\0" + (asset + "\0" + "")
    ensures Stream(CurationFields(asset, patterns + [p])) == Stream(CurationFields(asset, patterns)) + p + "\0"
  {
    assert CurationFields(asset, []) == ["business-source-curation/v1"] + [asset] && [asset] == [asset] + [];
    StreamCons("business-source-curation/v1", [asset]);
    StreamCons(asset, []);
    assert CurationFields(asset, patterns + [p]) == CurationFields(asset, patterns) + [p];
    StreamLast(CurationFields(asset, patterns), p);
  }

  /** A size has a minus sign exactly when it is negative, and no leading zero but for zero itself. */
  lemma DecimalCanonical(n: int)
    ensures Decimal(n) != "" && (Decimal(n)[0] == '-' <==> n < 0)
    ensures n < 0 ==> Decimal(n)[1..] == Decimal(-n)
    ensures n >= 0 && Decimal(n)[0] == '0' ==> n == 0 && Decimal(n) == "0"
    ensures n >= 0 ==> forall i :: 0 <= i < |Decimal(n)| ==> '0' <= Decimal(n)[i] <= '9'
  {
    if n >= 0 {
      NoLeadingZero(n);
    }
  }

  lemma {:induction false} NoLeadingZero(n: nat)
    ensures Digits(n)[0] == '0' ==> n == 0
  {
    if n >= 10 {
      NoLeadingZero(n / 10);
      assert Digits(n)[0] == Digits(n / 10)[0];
    }
  }
}
