/** The file fingerprints of internal/baseline: the streaming hash against the whole-buffer one, digest
    reuse, and what line-ending tolerance means.

    A running hash is modelled by the bytes written to it. The Go formatter is a parameter. */
module Fingerprints {
  import opened Contents

  const CR: byte := 13
  const LF: byte := 10

  /** normalizedFingerprintMaxBytes and normalizedFingerprintBinarySniffBytes. */
  const MAX_NORMALIZED := 4194304
  const SNIFF := 8000

  /** `kind` is empty when there is no formatted digest. */
  datatype Fingerprint = Fingerprint(
    role: string,
    sha: Digest,
    size: int,
    normalized: Digest,
    format: Digest,
    kind: string)

  type Formatter = Bytes -> Option<Bytes>

  // -------------------------------------------------------------------- folding

  /** bytes.ReplaceAll of CRLF by LF: leftmost occurrences, none overlapping. */
  function Fold(data: Bytes): Bytes {
    if |data| == 0 then []
    else if 2 <= |data| && data[0] == CR && data[1] == LF then [LF] + Fold(data[2..])
    else [data[0]] + Fold(data[1..])
  }

  /** A split that does not separate a CR from its LF. */
  predicate CleanSplit(a: Bytes, b: Bytes) {
    !(a != [] && b != [] && a[|a| - 1] == CR && b[0] == LF)
  }

  lemma {:induction false} FoldConcat(a: Bytes, b: Bytes)
    requires CleanSplit(a, b)
    ensures Fold(a + b) == Fold(a) + Fold(b)
    decreases |a|
  {
    if a == [] {
      assert a + b == b;
    } else if 2 <= |a| && a[0] == CR && a[1] == LF {
      assert (a + b)[2..] == a[2..] + b;
      FoldConcat(a[2..], b);
    } else {
      assert (a + b)[1..] == a[1..] + b;
      assert (a + b)[0] == a[0];
      assert 2 <= |a| ==> (a + b)[1] == a[1];
      FoldConcat(a[1..], b);
    }
  }

  /** What the running hash and the pending flag stand for after the bytes `seen`. */
  ghost predicate Folded(seen: Bytes, written: Bytes, pendingCR: bool) {
    && (pendingCR <==> seen != [] && seen[|seen| - 1] == CR)
    && written == Fold(if pendingCR then seen[..|seen| - 1] else seen)
  }

  /** The first `at` bytes of `data` are folded and the cut there separates no CR from its LF. */
  ghost predicate FoldedTo(data: Bytes, at: nat, written: Bytes) {
    && at <= |data|
    && written == Fold(data[..at])
    && CleanSplit(data[..at], data[at..])
  }

  lemma FoldNext(data: Bytes, at: nat, written: Bytes, n: nat)
    requires FoldedTo(data, at, written) && at + n <= |data|
    requires (n == 2 && data[at] == CR && data[at + 1] == LF)
             || (n == 1 && !(data[at] == CR && at + 1 < |data| && data[at + 1] == LF))
    ensures FoldedTo(data, at + n, written + [if n == 2 then LF else data[at]])
  {
    var a, b := data[..at], data[at..at + n];
    assert data[..at + n] == a + b;
    assert at < |data| && data[at..][0] == data[at] && b[0] == data[at];
    FoldConcat(a, b);
    assert b == if n == 2 then [CR, LF] else [data[at]];
    assert b[n..] == [];
  }

  /** The CR held back after the last chunk leaves a clean cut in front of it. */
  lemma FoldResumes(seen: Bytes, chunk: Bytes, written: Bytes, pendingCR: bool)
    requires Folded(seen, written, pendingCR)
    ensures FoldedTo(seen + chunk, if pendingCR then |seen| - 1 else |seen|, written)
  {
    var data, at := seen + chunk, if pendingCR then |seen| - 1 else |seen|;
    assert data[..at] == seen[..at];
    assert pendingCR ==> data[at..][0] == seen[at] == CR;
  }

  lemma FoldStep(seen: Bytes, chunk: Bytes, index: nat, dst: Bytes, output: Bytes, n: nat)
    requires FoldedTo(seen + chunk, |seen| + index, dst + output) && index + n <= |chunk|
    requires (n == 2 && chunk[index] == CR && chunk[index + 1] == LF)
             || (n == 1 && !(chunk[index] == CR && index + 1 < |chunk| && chunk[index + 1] == LF))
    ensures FoldedTo(seen + chunk, |seen| + index + n, dst + (output + [if n == 2 then LF else chunk[index]]))
  {
    FoldNext(seen + chunk, |seen| + index, dst + output, n);
    var last := [if n == 2 then LF else chunk[index]];
    assert dst + output + last == dst + (output + last);
  }

  lemma FoldEnds(seen: Bytes, chunk: Bytes, index: nat, written: Bytes)
    requires FoldedTo(seen + chunk, |seen| + index, written) && chunk != []
    requires (index == |chunk| && chunk[index - 1] != CR) || (index + 1 == |chunk| && chunk[index] == CR)
    ensures Folded(seen + chunk, written, index < |chunk|)
  {
    var data := seen + chunk;
    assert data[|data| - 1] == chunk[|chunk| - 1];
    assert data[..|data|] == data;
  }

  /** foldCRLFInto: one chunk, after the bytes `seen`, whatever the chunk border cuts through. */
  method FoldChunk(written: Bytes, chunk: Bytes, pendingCR: bool, ghost seen: Bytes)
    returns (written': Bytes, pendingCR': bool)
    requires Folded(seen, written, pendingCR)
    ensures Folded(seen + chunk, written', pendingCR')
  {
    if |chunk| == 0 {
      assert seen + chunk == seen;
      return written, pendingCR;
    }
    FoldResumes(seen, chunk, written, pendingCR);
    var dst, start := written, 0;
    if pendingCR {
      if chunk[0] == LF {
        FoldNext(seen + chunk, |seen| - 1, dst, 2);
        dst, start := dst + [LF], 1;
      } else {
        FoldNext(seen + chunk, |seen| - 1, dst, 1);
        dst := dst + [CR];
      }
    }
    var output, pending := FoldRest(dst, chunk, start, seen);
    return dst + output, pending;
  }

  /** The loop of foldCRLFInto, from `start` on. */
  method FoldRest(dst: Bytes, chunk: Bytes, start: nat, ghost seen: Bytes) returns (output: Bytes, pendingCR: bool)
    requires start <= |chunk| && chunk != [] && FoldedTo(seen + chunk, |seen| + start, dst)
    requires start == 0 || chunk[start - 1] == LF
    ensures Folded(seen + chunk, dst + output, pendingCR)
  {
    output := [];
    var index := start;
    assert dst + output == dst;
    while index < |chunk|
      invariant start <= index <= |chunk|
      invariant FoldedTo(seen + chunk, |seen| + index, dst + output)
      invariant index == |chunk| ==> chunk[index - 1] != CR
    {
      var current := chunk[index];
      if current == CR && index + 1 == |chunk| {
        FoldEnds(seen, chunk, index, dst + output);
        return output, true;
      }
      if current == CR && chunk[index + 1] == LF {
        FoldStep(seen, chunk, index, dst, output, 2);
        output, index := output + [LF], index + 2;
      } else {
        FoldStep(seen, chunk, index, dst, output, 1);
        output, index := output + [current], index + 1;
      }
    }
    FoldEnds(seen, chunk, index, dst + output);
    return output, false;
  }

  // -------------------------------------------------------------------- whole-buffer fingerprints

  function Sniffed(data: Bytes): Bytes {
    if |data| > SNIFF then data[..SNIFF] else data
  }

  /** Text small enough for a normalized digest. */
  predicate Eligible(data: Bytes) {
    |data| <= MAX_NORMALIZED && 0 !in Sniffed(data)
  }

  function HashBytes(gofmt: Formatter, isGo: bool, data: Bytes): Fingerprint {
    var normalized := if Eligible(data) then Sha256(Fold(data)) else NoDigest;
    var raw := Fingerprint("", Sha256(data), |data|, normalized, NoDigest, "");
    if isGo && Eligible(data) && gofmt(data).Some?
    then raw.(format := Sha256(gofmt(data).value), kind := "gofmt")
    else raw
  }

  /** What a fingerprint says of a file: its bytes and their number always; the fold of its line endings up to 4 MiB
      when no NUL is among its first 8000 bytes; its formatting when it is also Go source that parses. */
  lemma HashBytesMeans(gofmt: Formatter, isGo: bool, data: Bytes)
    ensures var f := HashBytes(gofmt, isGo, data);
            var text := |data| <= 4194304 && forall i :: 0 <= i < |data| && i < 8000 ==> data[i] != 0;
            && f.role == "" && f.sha == Sha256(data) && f.size == |data|
            && f.normalized == (if text then Sha256(Fold(data)) else NoDigest)
            && (if text && isGo && gofmt(data).Some? then f.format == Sha256(gofmt(data).value) && f.kind == "gofmt"
                else f.format == NoDigest && f.kind == "")
  {
    var text := |data| <= 4194304 && forall i :: 0 <= i < |data| && i < 8000 ==> data[i] != 0;
    if text {
      assert Eligible(data);
    } else if |data| <= 4194304 {
      var i :| 0 <= i < |data| && i < 8000 && data[i] == 0;
      assert Sniffed(data)[i] == 0;
    }
  }

  /** A prior whose formatted digest is carried over to a file that hashes to `full`. */
  predicate Reusable(prior: Fingerprint, full: Fingerprint) {
    && prior.sha == full.sha
    && prior.size == full.size
    && prior.normalized != NoDigest
    && prior.normalized == full.normalized
    && prior.kind == "gofmt"
    && prior.format != NoDigest
  }

  /** What hashing `data` gives when `reuse` is offered. */
  function HashWith(gofmt: Formatter, isGo: bool, data: Bytes, reuse: Option<Fingerprint>): Fingerprint {
    var full := HashBytes(gofmt, isGo, data);
    if isGo && reuse.Some? && Reusable(reuse.value, full)
    then full.(format := reuse.value.format, kind := "gofmt")
    else full
  }

  // -------------------------------------------------------------------- streaming

  function Joined(chunks: seq<Bytes>): Bytes {
    if |chunks| == 0 then [] else Joined(chunks[..|chunks| - 1]) + chunks[|chunks| - 1]
  }

  lemma JoinedNext(chunks: seq<Bytes>, k: nat)
    requires k < |chunks|
    ensures Joined(chunks[..k + 1]) == Joined(chunks[..k]) + chunks[k]
  {
    assert chunks[..k + 1][..k] == chunks[..k];
  }

  function Min(a: int, b: int): int { if a < b then a else b }

  lemma SniffNext(seen: Bytes, chunk: Bytes)
    ensures |seen| < SNIFF ==>
      (0 in Sniffed(seen + chunk) <==> 0 in Sniffed(seen) || 0 in chunk[..Min(|chunk|, SNIFF - |seen|)])
    ensures |seen| >= SNIFF ==> Sniffed(seen + chunk) == Sniffed(seen)
  {
    if |seen| < SNIFF {
      assert Sniffed(seen + chunk) == seen + chunk[..Min(|chunk|, SNIFF - |seen|)];
    }
  }

  /** hashFile: one pass over whatever the reads return, an error of the last read, an optional prior. */
  method HashFile(gofmt: Formatter, isGo: bool, chunks: seq<Bytes>, failed: bool, reuse: Option<Fingerprint>)
    returns (r: Option<Fingerprint>)
    ensures failed ==> r == None
    ensures !failed ==> r == Some(HashWith(gofmt, isGo, Joined(chunks), reuse))
  {
    var raw: Bytes, normalized: Bytes, goSource: Bytes := [], [], [];
    var total, sniffed: int := 0, 0;
    var eligible, binary, pendingCR, collect := true, false, false, isGo;
    ghost var seen: Bytes := [];
    for k := 0 to |chunks|
      invariant seen == Joined(chunks[..k]) && raw == seen
      invariant total == |seen| && sniffed == Min(|seen|, SNIFF)
      invariant binary <==> 0 in Sniffed(seen)
      invariant eligible <==> |seen| <= MAX_NORMALIZED
      invariant eligible ==> Folded(seen, normalized, pendingCR)
      invariant collect <==> isGo && eligible
      invariant collect ==> goSource == seen
    {
      var chunk := chunks[k];
      JoinedNext(chunks, k);
      if collect {
        if total + |chunk| > MAX_NORMALIZED {
          collect, goSource := false, [];
        } else {
          goSource := goSource + chunk;
        }
      }
      raw, total := raw + chunk, total + |chunk|;
      SniffNext(seen, chunk);
      if sniffed < SNIFF {
        var count := Min(|chunk|, SNIFF - sniffed);
        if 0 in chunk[..count] {
          binary := true;
        }
        sniffed := sniffed + count;
      }
      if eligible {
        if total > MAX_NORMALIZED {
          eligible, pendingCR := false, false;
        } else {
          normalized, pendingCR := FoldChunk(normalized, chunk, pendingCR, seen);
        }
      }
      seen := seen + chunk;
    }
    assert chunks[..|chunks|] == chunks;
    if failed {
      return None;
    }
    if eligible && pendingCR {
      FoldLastCR(seen, normalized);
      normalized := normalized + [CR];
    }
    var result := Fingerprint("", Sha256(raw), total, NoDigest, NoDigest, "");
    if eligible && !binary {
      result := result.(normalized := Sha256(normalized));
    }
    if collect && !binary && reuse.Some? && Reusable(reuse.value, result) {
      result := result.(format := reuse.value.format, kind := reuse.value.kind);
      collect := false;
    }
    if collect && !binary {
      var formatted := gofmt(goSource);
      if formatted.Some? {
        result := result.(format := Sha256(formatted.value), kind := "gofmt");
      }
    }
    return Some(result);
  }

  /** A CR that ends the file stays. */
  lemma FoldLastCR(seen: Bytes, written: Bytes)
    requires Folded(seen, written, true)
    ensures Fold(seen) == written + [CR]
  {
    var head := seen[..|seen| - 1];
    assert seen == head + [CR];
    FoldConcat(head, [CR]);
    assert [CR][1..] == [];
  }

  // -------------------------------------------------------------------- reuse

  /** A prior that hashing could have produced, for any bytes, any extension and any role, changes nothing. */
  lemma HonestReuse(gofmt: Formatter, isGo: bool, data: Bytes, wasGo: bool, was: Bytes, role: string)
    ensures HashWith(gofmt, isGo, data, Some(HashBytes(gofmt, wasGo, was).(role := role))) == HashBytes(gofmt, isGo, data)
  {
  }

  /** An arbitrary prior reaches only the format fields, and changes the fingerprint exactly when it matches
      everything recomputed from the file and carries a formatted digest that these bytes do not have. */
  lemma ArbitraryReuse(gofmt: Formatter, isGo: bool, data: Bytes, prior: Fingerprint)
    ensures var full := HashBytes(gofmt, isGo, data);
            var r := HashWith(gofmt, isGo, data, Some(prior));
            && r == full.(format := r.format, kind := r.kind)
            && (r != full <==>
                && isGo && Eligible(data)
                && prior == Fingerprint(prior.role, Sha256(data), |data|, Sha256(Fold(data)), prior.format, "gofmt")
                && prior.format != NoDigest
                && (gofmt(data).None? || prior.format != Sha256(gofmt(data).value)))
  {
  }

  predicate IsFormatOnlyChange(before: Fingerprint, after: Fingerprint) {
    && before.sha != after.sha
    && before.kind != ""
    && before.kind == after.kind
    && before.format != NoDigest
    && before.format == after.format
  }

  /** Between files, a format-only change is different source that formats to the same bytes; and the only
      judgement made from the formatted digest cannot see whether the prior, even a forged one, was reused. */
  lemma FormatOnlyChangeExact(gofmt: Formatter, isGo: bool, data: Bytes, wasGo: bool, was: Bytes, prior: Fingerprint)
    ensures IsFormatOnlyChange(HashBytes(gofmt, wasGo, was), HashBytes(gofmt, isGo, data)) <==>
      && data != was && isGo && wasGo && Eligible(data) && Eligible(was)
      && gofmt(data).Some? && gofmt(data) == gofmt(was)
    ensures IsFormatOnlyChange(prior, HashWith(gofmt, isGo, data, Some(prior)))
         == IsFormatOnlyChange(prior, HashBytes(gofmt, isGo, data))
    ensures forall other: Fingerprint :: prior.kind == "" || prior.kind != other.kind || prior.format == NoDigest || prior.format != other.format ==>
              !IsFormatOnlyChange(prior, other)
  {
  }

  // -------------------------------------------------------------------- line-ending tolerance

  /** A text as lines see it: CRLF pairs and single bytes. */
  datatype Token = Crlf | One(b: byte)

  function Spell(tokens: seq<Token>): Bytes {
    if |tokens| == 0 then []
    else (if tokens[0].Crlf? then [13, 10] else [tokens[0].b]) + Spell(tokens[1..])
  }

  /** No CR and LF stand side by side as single bytes. */
  predicate Greedy(tokens: seq<Token>) {
    forall i :: 0 <= i < |tokens| - 1 ==> !(tokens[i] == One(13) && tokens[i + 1] == One(10))
  }

  function Tokens(data: Bytes): (r: seq<Token>)
    ensures data == [] <==> r == []
    ensures data != [] && data[0] == LF ==> r[0] == One(LF)
    ensures data != [] && data[0] != LF ==> r[0] != One(LF)
  {
    if |data| == 0 then []
    else if 2 <= |data| && data[0] == CR && data[1] == LF then [Crlf] + Tokens(data[2..])
    else [One(data[0])] + Tokens(data[1..])
  }

  /** Every text has exactly one reading as CRLF pairs and single bytes. */
  lemma {:induction false} TokensSpell(data: Bytes)
    ensures Spell(Tokens(data)) == data && Greedy(Tokens(data))
    decreases |data|
  {
    if |data| > 0 {
      var n := if 2 <= |data| && data[0] == CR && data[1] == LF then 2 else 1;
      TokensSpell(data[n..]);
      var tokens := Tokens(data);
      assert tokens[1..] == Tokens(data[n..]);
      assert Spell(tokens) == data[..n] + Spell(tokens[1..]);
      forall i | 0 <= i < |tokens| - 1 ensures !(tokens[i] == One(CR) && tokens[i + 1] == One(LF)) {
        if i == 0 {
          assert tokens[1] == Tokens(data[n..])[0];
        } else {
          assert tokens[i] == tokens[1..][i - 1] && tokens[i + 1] == tokens[1..][i];
        }
      }
    }
  }

  lemma {:induction false} SpellTokens(tokens: seq<Token>)
    requires Greedy(tokens)
    ensures Tokens(Spell(tokens)) == tokens
    decreases |tokens|
  {
    if |tokens| > 0 {
      var rest := tokens[1..];
      assert forall i :: 0 <= i < |rest| ==> rest[i] == tokens[i + 1];
      SpellTokens(rest);
      var data := Spell(tokens);
      var n := if tokens[0].Crlf? then 2 else 1;
      assert data[n..] == Spell(rest);
      if tokens[0] == One(CR) && rest != [] {
        assert Tokens(Spell(rest))[0] == tokens[1];
        assert data[1] == Spell(rest)[0];
      }
    }
  }

  /** Token for token the same, except that CRLF and LF count as one. */
  predicate SameButLineEndings(a: seq<Token>, b: seq<Token>) {
    && |a| == |b|
    && forall i :: 0 <= i < |a| ==> a[i] == b[i] || (a[i] in {Crlf, One(10)} && b[i] in {Crlf, One(10)})
  }

  /** Folding writes one byte for each token: LF for a CRLF pair, and every other byte as it is. */
  lemma {:induction false} FoldSpells(data: Bytes)
    ensures |Fold(data)| == |Tokens(data)|
    ensures forall i :: 0 <= i < |Tokens(data)| ==> Fold(data)[i] == if Tokens(data)[i].Crlf? then 10 else Tokens(data)[i].b
    decreases |data|
  {
    if data != [] {
      var n := if 2 <= |data| && data[0] == CR && data[1] == LF then 2 else 1;
      FoldHead(data, n);
      FoldSpells(data[n..]);
      forall i | 0 <= i < |Tokens(data)| ensures Fold(data)[i] == if Tokens(data)[i].Crlf? then 10 else Tokens(data)[i].b {
        if i > 0 {
          assert Fold(data)[i] == Fold(data)[1..][i - 1] && Tokens(data)[i] == Tokens(data)[1..][i - 1];
        }
      }
    }
  }

  lemma {:induction false} FoldIsTokens(a: Bytes, b: Bytes)
    ensures Fold(a) == Fold(b) <==> SameButLineEndings(Tokens(a), Tokens(b))
    decreases |a|
  {
    if a == [] || b == [] {
      assert Tokens(a) == [] <==> Fold(a) == [];
      assert Tokens(b) == [] <==> Fold(b) == [];
    } else {
      var m := if 2 <= |a| && a[0] == CR && a[1] == LF then 2 else 1;
      var n := if 2 <= |b| && b[0] == CR && b[1] == LF then 2 else 1;
      FoldIsTokens(a[m..], b[n..]);
      FoldHead(a, m);
      FoldHead(b, n);
      SameHead(Tokens(a), Tokens(b));
    }
  }

  lemma FoldHead(a: Bytes, n: nat)
    requires a != [] && n == if 2 <= |a| && a[0] == CR && a[1] == LF then 2 else 1
    ensures Fold(a)[0] == (if n == 2 then LF else a[0]) && Fold(a)[1..] == Fold(a[n..]) && Fold(a) == [Fold(a)[0]] + Fold(a)[1..]
    ensures Tokens(a)[0] == (if n == 2 then Crlf else One(a[0])) && Tokens(a)[1..] == Tokens(a[n..])
  {
  }

  lemma SameHead(a: seq<Token>, b: seq<Token>)
    requires a != [] && b != []
    ensures SameButLineEndings(a, b) <==>
      && SameButLineEndings(a[1..], b[1..])
      && (a[0] == b[0] || (a[0] in {Crlf, One(LF)} && b[0] in {Crlf, One(LF)}))
  {
    if SameButLineEndings(a[1..], b[1..]) {
      assert forall i :: 1 <= i < |a| ==> a[i] == a[1..][i - 1] && b[i] == b[1..][i - 1];
    }
  }

  /** EquivalentFingerprints. */
  function Equivalent(was: Fingerprint, now: Fingerprint, tolerate: bool): (r: (bool, bool)) {
    if was.sha == now.sha then (true, false)
    else if !tolerate then (false, false)
    else if was.normalized == NoDigest || now.normalized == NoDigest then (false, false)
    else if was.normalized == now.normalized then (true, true)
    else (false, false)
  }

  /** What the judgement means for files, whatever their recorded roles: the same bytes, or, when tolerated, two
      eligible texts whose tokens differ only in CRLF against LF. A CR on its own is never absorbed. */
  lemma ToleranceMeaning(gofmt: Formatter, goA: bool, a: Bytes, roleA: string, goB: bool, b: Bytes, roleB: string, tolerate: bool)
    ensures var (equal, lineEndingOnly) :=
              Equivalent(HashBytes(gofmt, goA, a).(role := roleA), HashBytes(gofmt, goB, b).(role := roleB), tolerate);
            && (equal <==> a == b || (tolerate && Eligible(a) && Eligible(b) && SameButLineEndings(Tokens(a), Tokens(b))))
            && (lineEndingOnly <==> equal && a != b)
            && (equal ==> |Tokens(a)| == |Tokens(b)|
                          && forall i :: 0 <= i < |Tokens(a)| ==> (Tokens(a)[i] == One(CR) <==> Tokens(b)[i] == One(CR)))
  {
    FoldIsTokens(a, b);
  }

  /** On files, tolerant or not, the judgement is an equivalence relation. */
  lemma ToleranceIsEquivalence(gofmt: Formatter, goA: bool, a: Bytes, roleA: string, goB: bool, b: Bytes, roleB: string,
                               goC: bool, c: Bytes, roleC: string, tolerate: bool)
    ensures var x, y := HashBytes(gofmt, goA, a).(role := roleA), HashBytes(gofmt, goB, b).(role := roleB);
            var z := HashBytes(gofmt, goC, c).(role := roleC);
            && Equivalent(x, x, tolerate).0
            && Equivalent(x, y, tolerate) == Equivalent(y, x, tolerate)
            && (Equivalent(x, y, tolerate).0 && Equivalent(y, z, tolerate).0 ==> Equivalent(x, z, tolerate).0)
  {
  }

  /** On any records, only the raw and the normalized digests matter, and where a normalized digest is missing the
      comparison is strict. */
  lemma RecordsAreComparedByDigests(was: Fingerprint, now: Fingerprint, was': Fingerprint, now': Fingerprint, tolerate: bool)
    requires was.sha == was'.sha && was.normalized == was'.normalized
    requires now.sha == now'.sha && now.normalized == now'.normalized
    ensures Equivalent(was, now, tolerate) == Equivalent(was', now', tolerate)
    ensures !tolerate || was.normalized == NoDigest || now.normalized == NoDigest ==>
              Equivalent(was, now, tolerate) == (was.sha == now.sha, false)
  {
  }

  /** On records that no file hashes to it is not transitive: here the first has lost its normalized digest. */
  lemma ToleranceNeedsHonestRecords(gofmt: Formatter)
    ensures var x, y := HashBytes(gofmt, false, [CR, LF]), HashBytes(gofmt, false, [LF]);
            var stripped := x.(normalized := NoDigest);
            Equivalent(stripped, x, true).0 && Equivalent(x, y, true).0 && !Equivalent(stripped, y, true).0
  {
    assert Fold([CR, LF]) == [LF] + Fold([CR, LF][2..]);
  }
}
