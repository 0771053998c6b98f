/** The ASCII-safe JSON output of internal/cli/json_ascii.go: UTF-8 decoding as unicode/utf8 does it, the
    escaping loop, and what a JSON reader makes of the result. */
module JsonAscii {
  import opened Contents

  // -------------------------------------------------------------------- UTF-8

  predicate Scalar(c: int) { 0 <= c < 0xD800 || 0xE000 <= c <= 0x10FFFF }

  /** A continuation byte, and what is left of the code point above it. */
  function Cont(c: int): (r: int)
    requires c >= 0
    ensures 0x80 <= r <= 0xBF && c == Up(c) * 64 + (r - 0x80)
  {
    0x80 + c % 64
  }

  function Up(c: int): (r: int)
    requires c >= 0
    ensures 0 <= c - r * 64 < 64 && r >= 0
  {
    c / 64
  }

  /** The encoding of section 3 of RFC 3629. */
  function Utf8(c: int): (r: Bytes)
    requires Scalar(c)
    ensures 1 <= |r| <= 4
  {
    if c < 0x80 then [c as byte]
    else if c < 0x800 then [(0xC0 + Up(c)) as byte, Cont(c) as byte]
    else if c < 0x10000 then [(0xE0 + Up(Up(c))) as byte, Cont(Up(c)) as byte, Cont(c) as byte]
    else [(0xF0 + Up(Up(Up(c)))) as byte, Cont(Up(Up(c))) as byte, Cont(Up(c)) as byte, Cont(c) as byte]
  }

  /** How many bytes a code point takes, and its bits in them: a marked first byte and six bits in each of the rest. */
  lemma Utf8Layout(c: int)
    requires Scalar(c)
    ensures var e := Utf8(c);
            && |e| == (if c < 0x80 then 1 else if c < 0x800 then 2 else if c < 0x10000 then 3 else 4)
            && (forall i :: 1 <= i < |e| ==> 0x80 <= e[i] < 0xC0)
            && (|e| == 1 ==> e[0] as int == c)
            && (|e| == 2 ==> (e[0] as int - 0xC0) * 64 + (e[1] as int - 0x80) == c)
            && (|e| == 3 ==> (e[0] as int - 0xE0) * 4096 + (e[1] as int - 0x80) * 64 + (e[2] as int - 0x80) == c)
            && (|e| == 4 ==> (e[0] as int - 0xF0) * 262144 + (e[1] as int - 0x80) * 4096
                             + (e[2] as int - 0x80) * 64 + (e[3] as int - 0x80) == c)
  {
  }

  const RUNE_ERROR := 0xFFFD

  predicate Tail(data: Bytes, i: nat, low: int, high: int) { i < |data| && low <= data[i] as int <= high }

  /** utf8.DecodeRune: a code point and its size, or RUNE_ERROR and 1 where no encoding starts. */
  function DecodeRune(data: Bytes): (r: (int, nat))
    requires data != []
    ensures 1 <= r.1 <= |data|
  {
    var b := data[0] as int;
    if b < 0x80 then (b, 1)
    else if 0xC2 <= b <= 0xDF && Tail(data, 1, 0x80, 0xBF) then
      ((b - 0xC0) * 64 + (data[1] as int - 0x80), 2)
    else if 0xE0 <= b <= 0xEF && Tail(data, 1, if b == 0xE0 then 0xA0 else 0x80, if b == 0xED then 0x9F else 0xBF)
            && Tail(data, 2, 0x80, 0xBF) then
      ((b - 0xE0) * 4096 + (data[1] as int - 0x80) * 64 + (data[2] as int - 0x80), 3)
    else if 0xF0 <= b <= 0xF4 && Tail(data, 1, if b == 0xF0 then 0x90 else 0x80, if b == 0xF4 then 0x8F else 0xBF)
            && Tail(data, 2, 0x80, 0xBF) && Tail(data, 3, 0x80, 0xBF) then
      ((b - 0xF0) * 262144 + (data[1] as int - 0x80) * 4096 + (data[2] as int - 0x80) * 64 + (data[3] as int - 0x80), 4)
    else (RUNE_ERROR, 1)
  }

  predicate Bad(data: Bytes) requires data != [] { DecodeRune(data) == (RUNE_ERROR, 1) }

  lemma ContUnique(q: int, r: int)
    requires q >= 0 && 0 <= r < 64
    ensures Up(q * 64 + r) == q && Cont(q * 64 + r) == 0x80 + r
  {
  }

  /** Decoding inverts encoding ... */
  lemma DecodesEncoded(c: int, rest: Bytes)
    requires Scalar(c)
    ensures !Bad(Utf8(c) + rest) && DecodeRune(Utf8(c) + rest) == (c, |Utf8(c)|)
  {
    var e := Utf8(c);
    var data := e + rest;
    assert data[0] == e[0];
    assert |e| >= 2 ==> data[1] == e[1];
    assert |e| >= 3 ==> data[2] == e[2];
    assert |e| >= 4 ==> data[3] == e[3];
  }

  /** ... and accepts nothing else. */
  lemma DecodedIsEncoded(data: Bytes)
    requires data != [] && !Bad(data)
    ensures var (c, n) := DecodeRune(data); Scalar(c) && data[..n] == Utf8(c)
  {
    var n := DecodeRune(data).1;
    if n == 2 {
      ContUnique(data[0] as int - 0xC0, data[1] as int - 0x80);
    } else if n == 3 {
      Decoded3(data);
    } else if n == 4 {
      Decoded4(data);
    }
  }

  lemma Decoded3(data: Bytes)
    requires data != [] && !Bad(data) && DecodeRune(data).1 == 3
    ensures var c := DecodeRune(data).0; Scalar(c) && data[..3] == Utf8(c)
  {
    var q := (data[0] as int - 0xE0) * 64 + (data[1] as int - 0x80);
    ContUnique(data[0] as int - 0xE0, data[1] as int - 0x80);
    ContUnique(q, data[2] as int - 0x80);
  }

  lemma Decoded4(data: Bytes)
    requires data != [] && !Bad(data) && DecodeRune(data).1 == 4
    ensures var c := DecodeRune(data).0; Scalar(c) && data[..4] == Utf8(c)
  {
    var q := (data[0] as int - 0xF0) * 64 + (data[1] as int - 0x80);
    var p := q * 64 + (data[2] as int - 0x80);
    ContUnique(data[0] as int - 0xF0, data[1] as int - 0x80);
    ContUnique(q, data[2] as int - 0x80);
    ContUnique(p, data[3] as int - 0x80);
  }

  type Text = seq<int>

  /** The code points of a byte sequence, when it is UTF-8. */
  function Decode(data: Bytes): Option<Text>
    decreases |data|
  {
    if data == [] then Some([])
    else if Bad(data) then None
    else
      var (c, n) := DecodeRune(data);
      var rest := Decode(data[n..]);
      if rest.None? then None else Some([c] + rest.value)
  }

  predicate Scalars(t: Text) { forall i :: 0 <= i < |t| ==> Scalar(t[i]) }

  function Encode(t: Text): Bytes
    requires Scalars(t)
  {
    if t == [] then [] else Utf8(t[0]) + Encode(t[1..])
  }

  /** Decoding accepts exactly the encodings, and gives back what was encoded. */
  lemma {:induction false} DecodeInvertsEncode(t: Text)
    requires Scalars(t)
    ensures Decode(Encode(t)) == Some(t)
    decreases |t|
  {
    if t != [] {
      DecodesEncoded(t[0], Encode(t[1..]));
      assert Encode(t)[|Utf8(t[0])|..] == Encode(t[1..]);
      DecodeInvertsEncode(t[1..]);
      assert [t[0]] + t[1..] == t;
    }
  }

  lemma {:induction false} EncodeInvertsDecode(data: Bytes)
    requires Decode(data).Some?
    ensures Scalars(Decode(data).value) && Encode(Decode(data).value) == data
    decreases |data|
  {
    if data != [] {
      var c, n := DecodeFirst(data);
      EncodeInvertsDecode(data[n..]);
      EncodeFirst(data, c, n, Decode(data[n..]).value);
    }
  }

  lemma DecodeFirst(data: Bytes) returns (c: int, n: nat)
    requires data != [] && Decode(data).Some?
    ensures 1 <= n <= |data| && Scalar(c) && data[..n] == Utf8(c)
    ensures Decode(data[n..]).Some? && Decode(data).value == [c] + Decode(data[n..]).value
  {
    c, n := DecodeRune(data).0, DecodeRune(data).1;
    DecodedIsEncoded(data);
  }

  lemma EncodeFirst(data: Bytes, c: int, n: nat, rest: Text)
    requires n <= |data| && Scalar(c) && data[..n] == Utf8(c) && Scalars(rest) && Encode(rest) == data[n..]
    ensures Scalars([c] + rest) && Encode([c] + rest) == data
  {
    assert ([c] + rest)[1..] == rest;
    assert data == data[..n] + data[n..];
  }

  // -------------------------------------------------------------------- escaping

  function Hex(d: int): (r: byte)
    requires 0 <= d < 16
    ensures 48 <= r <= 57 || 97 <= r <= 102
  {
    (if d < 10 then 48 + d else 87 + d) as byte
  }

  /** appendJSONUnicodeEscape: a backslash, u and four lower-case hexadecimal digits. */
  function UnicodeEscape(u: int): (r: Bytes)
    requires 0 <= u < 0x10000
    ensures Ascii(r) && |r| == 6
  {
    [92, 117, Hex(u / 4096), Hex(u / 256 % 16), Hex(u / 16 % 16), Hex(u % 16)]
  }

  /** The escape of a code unit, digit by digit. */
  lemma EscapeLayout(u: int)
    requires 0 <= u < 0x10000
    ensures var digits := "0123456789abcdef";
            UnicodeEscape(u) == ['\\' as int as byte, 'u' as int as byte,
                                 digits[u / 4096] as int as byte, digits[u / 256 % 16] as int as byte,
                                 digits[u / 16 % 16] as int as byte, digits[u % 16] as int as byte]
  {
    var digits := "0123456789abcdef";
    forall d | 0 <= d < 16 ensures Hex(d) == digits[d] as int as byte {
    }
  }

  /** utf16.EncodeRune for supplementary code points, the code point itself below them. */
  function Utf16(c: int): (r: seq<int>)
    requires 0 <= c <= 0x10FFFF
    ensures forall i :: 0 <= i < |r| ==> 0 <= r[i] < 0x10000
  {
    if c < 0x10000 then [c] else [0xD800 + (c - 0x10000) / 1024, 0xDC00 + (c - 0x10000) % 1024]
  }

  /** Section 2.2 of RFC 2781 reads the pair back, and the halves are surrogates in that order. */
  lemma SurrogatesDecode(c: int)
    requires 0 <= c <= 0x10FFFF
    ensures c < 0x10000 ==> Utf16(c) == [c]
    ensures 0x10000 <= c ==>
            var pair := Utf16(c);
            && |pair| == 2
            && 0xD800 <= pair[0] < 0xDC00 <= pair[1] < 0xE000
            && 0x10000 + (pair[0] - 0xD800) * 1024 + (pair[1] - 0xDC00) == c
  {
  }

  function EscapedChar(c: int): (r: Bytes)
    requires Scalar(c)
    ensures Ascii(r)
  {
    if c < 0x80 then [c as byte]
    else if c < 0x10000 then UnicodeEscape(c)
    else UnicodeEscape(Utf16(c)[0]) + UnicodeEscape(Utf16(c)[1])
  }

  /** One round of the loop: what is written, and how many bytes are consumed. */
  function Round(data: Bytes): (r: (Bytes, nat))
    requires data != []
    ensures 1 <= r.1 <= |data|
  {
    if Bad(data) then (data[..1], 1)
    else DecodedIsEncoded(data); (EscapedChar(DecodeRune(data).0), DecodeRune(data).1)
  }

  function Escaped(data: Bytes): Bytes
    decreases |data|
  {
    if data == [] then [] else Round(data).0 + Escaped(data[Round(data).1..])
  }

  predicate Ascii(data: Bytes) { forall i :: 0 <= i < |data| ==> data[i] < 0x80 }

  lemma {:induction false} AsciiUnchanged(data: Bytes)
    requires Ascii(data)
    ensures Escaped(data) == data && Decode(data).Some?
    decreases |data|
  {
    if data != [] {
      assert data[0] < 0x80;
      AsciiUnchanged(data[1..]);
      assert data == data[..1] + data[1..];
    }
  }

  /** escapeJSONNonASCII. */
  method EscapeJSONNonASCII(data: Bytes) returns (output: Bytes)
    ensures output == Escaped(data)
    ensures Ascii(output) <==> Decode(data).Some?
    ensures JsonTokens(data).Some? ==> Ascii(output) && JsonTokens(output) == JsonTokens(data)
  {
    EscapedAscii(data);
    if JsonTokens(data).Some? {
      EscapingKeepsMeaning(data);
    }
    if forall i :: 0 <= i < |data| ==> data[i] < 0x80 {
      AsciiUnchanged(data);
      return data;
    }
    output := [];
    var rest := data;
    while |rest| > 0
      invariant output + Escaped(rest) == Escaped(data)
      decreases |rest|
    {
      var written, size := EscapeOne(rest);
      assert output + (written + Escaped(rest[size..])) == output + written + Escaped(rest[size..]);
      output, rest := output + written, rest[size..];
    }
  }

  /** The body of the loop. */
  method EscapeOne(data: Bytes) returns (written: Bytes, size: nat)
    requires data != []
    ensures 1 <= size <= |data| && Escaped(data) == written + Escaped(data[size..])
  {
    var current, count := DecodeRune(data).0, DecodeRune(data).1;
    size := count;
    if current == RUNE_ERROR && size == 1 {
      return [data[0]], 1;
    }
    DecodedIsEncoded(data);
    if current <= 0x7f {
      written := [current as byte];
    } else if current <= 0xffff {
      written := UnicodeEscape(current);
    } else {
      var pair := Utf16(current);
      written := UnicodeEscape(pair[0]) + UnicodeEscape(pair[1]);
    }
  }

  /** The output is pure ASCII exactly when the input is UTF-8; any other byte is kept as it is. */
  lemma {:induction false} EscapedAscii(data: Bytes)
    ensures Ascii(Escaped(data)) <==> Decode(data).Some?
    decreases |data|
  {
    if data != [] {
      var w, n := Round(data).0, Round(data).1;
      EscapedAscii(data[n..]);
      RoundAscii(data);
      AsciiConcat(w, Escaped(data[n..]));
    }
  }

  lemma RoundAscii(data: Bytes)
    requires data != []
    ensures Ascii(Round(data).0) <==> !Bad(data)
  {
    if Bad(data) {
      assert Round(data).0[0] >= 0x80;
    }
  }

  /** A byte at which no encoding starts is written as it is; a character is written as its escape. */
  lemma EscapedStep(data: Bytes)
    requires data != []
    ensures Bad(data) ==> Escaped(data) == [data[0]] + Escaped(data[1..])
    ensures !Bad(data) ==>
            var (c, n) := DecodeRune(data);
            && Scalar(c) && data[..n] == Utf8(c)
            && Escaped(data) == (if c < 0x80 then [c as byte] else if c < 0x10000 then UnicodeEscape(c)
                                 else UnicodeEscape(Utf16(c)[0]) + UnicodeEscape(Utf16(c)[1])) + Escaped(data[n..])
  {
    if Bad(data) {
      assert data[..1] == [data[0]];
    } else {
      DecodedIsEncoded(data);
    }
  }

  lemma AsciiConcat(a: Bytes, b: Bytes)
    ensures Ascii(a + b) <==> Ascii(a) && Ascii(b)
  {
    if Ascii(a + b) {
      assert forall i :: 0 <= i < |a| ==> a[i] == (a + b)[i];
      assert forall i :: 0 <= i < |b| ==> b[i] == (a + b)[|a| + i];
    }
  }

  // -------------------------------------------------------------------- what a JSON reader sees

  /** A character outside strings, or a string as its UTF-16 code units (section 7 of RFC 8259). */
  datatype Token = Mark(c: int) | Str(units: seq<int>)

  datatype Mode =
    | Outside
    | Inside(units: seq<int>)
    | Escape(units: seq<int>)
    | Digits(units: seq<int>, count: nat, value: int)

  datatype Reader = Failed | Reader(mode: Mode, tokens: seq<Token>)

  /** Structural characters, white space, and what numbers, true, false and null are spelled with. */
  predicate MarkChar(c: int) {
    || c in {0x20, 9, 10, 13, '{' as int, '}' as int, '[' as int, ']' as int, ':' as int, ',' as int}
    || '0' as int <= c <= '9' as int
    || 'a' as int <= c <= 'z' as int
    || c in {'+' as int, '-' as int, '.' as int, 'E' as int}
  }

  function HexValue(c: int): int {
    if 48 <= c <= 57 then c - 48
    else if 97 <= c <= 102 then c - 87
    else if 65 <= c <= 70 then c - 55
    else -1
  }

  /** What follows a backslash, other than u. */
  function Simple(c: int): int {
    if c == 34 || c == 92 || c == 47 then c
    else if c == 98 then 8
    else if c == 102 then 12
    else if c == 110 then 10
    else if c == 114 then 13
    else if c == 116 then 9
    else -1
  }

  function Step(l: Reader, c: int): Reader
    requires Scalar(c)
  {
    if l.Failed? then Failed
    else match l.mode
      case Outside =>
        if c == 34 then l.(mode := Inside([]))
        else if MarkChar(c) then l.(tokens := l.tokens + [Mark(c)])
        else Failed
      case Inside(units) =>
        if c == 34 then Reader(Outside, l.tokens + [Str(units)])
        else if c == 92 then l.(mode := Escape(units))
        else if c < 0x20 then Failed
        else l.(mode := Inside(units + Utf16(c)))
      case Escape(units) =>
        if c == 117 then l.(mode := Digits(units, 0, 0))
        else if Simple(c) >= 0 then l.(mode := Inside(units + [Simple(c)]))
        else Failed
      case Digits(units, count, value) =>
        if HexValue(c) < 0 then Failed
        else if count < 3 then l.(mode := Digits(units, count + 1, value * 16 + HexValue(c)))
        else l.(mode := Inside(units + [value * 16 + HexValue(c)]))
  }

  /** A reader over UTF-8 bytes; it fails on bytes that are not. */
  function Run(l: Reader, data: Bytes): Reader
    decreases |data|
  {
    if data == [] then l
    else if Bad(data) then Failed
    else DecodedIsEncoded(data); Run(Step(l, DecodeRune(data).0), data[DecodeRune(data).1..])
  }

  const START := Reader(Outside, [])

  /** A reading is complete outside strings. */
  function TokensOf(l: Reader): Option<seq<Token>> {
    match l
    case Reader(Outside, tokens) => Some(tokens)
    case _ => None
  }

  /** The tokens of a JSON text; every JSON value is a function of them. */
  function JsonTokens(data: Bytes): Option<seq<Token>> { TokensOf(Run(START, data)) }

  lemma {:induction false} FailedStays(data: Bytes)
    ensures Run(Failed, data) == Failed
    decreases |data|
  {
    if data != [] && !Bad(data) {
      DecodedIsEncoded(data);
      FailedStays(data[DecodeRune(data).1..]);
    }
  }

  lemma RunByte(l: Reader, b: byte, rest: Bytes)
    requires b < 0x80
    ensures Run(l, [b] + rest) == Run(Step(l, b as int), rest)
  {
    assert ([b] + rest)[1..] == rest;
  }

  lemma {:induction false} RunAscii(l: Reader, a: Bytes, b: Bytes)
    requires Ascii(a)
    ensures Run(l, a + b) == Run(Run(l, a), b)
    decreases |a|
  {
    if a == [] {
      assert a + b == b;
    } else {
      assert a == [a[0]] + a[1..];
      assert a + b == [a[0]] + (a[1..] + b);
      RunByte(l, a[0], a[1..] + b);
      RunByte(l, a[0], a[1..]);
      RunAscii(Step(l, a[0] as int), a[1..], b);
    }
  }

  lemma RunAt(l: Reader, e: Bytes, k: nat)
    requires k < |e| && e[k] < 0x80
    ensures Run(l, e[k..]) == Run(Step(l, e[k] as int), e[k + 1..])
  {
    assert e[k..] == [e[k]] + e[k + 1..];
    RunByte(l, e[k], e[k + 1..]);
  }

  lemma RunSix(l: Reader, e: Bytes)
    requires |e| == 6 && Ascii(e)
    ensures Run(l, e) == Step(Step(Step(Step(Step(Step(l, e[0] as int), e[1] as int), e[2] as int), e[3] as int), e[4] as int), e[5] as int)
  {
    var l1 := Step(l, e[0] as int);
    var l2 := Step(l1, e[1] as int);
    var l3 := Step(l2, e[2] as int);
    var l4 := Step(l3, e[3] as int);
    var l5 := Step(l4, e[4] as int);
    var l6 := Step(l5, e[5] as int);
    RunAt(l, e, 0);
    RunAt(l1, e, 1);
    RunAt(l2, e, 2);
    RunAt(l3, e, 3);
    RunAt(l4, e, 4);
    RunAt(l5, e, 5);
    RunNothing(l6, e[6..]);
    assert e[0..] == e;
  }

  lemma RunNothing(l: Reader, e: Bytes)
    requires e == []
    ensures Run(l, e) == l
  {
  }

  lemma HexReads(d: int)
    requires 0 <= d < 16
    ensures HexValue(Hex(d) as int) == d
  {
  }

  lemma StepSix(l: Reader, a: int, b: int, c: int, d: int)
    requires l.Reader? && l.mode.Inside?
    requires 0 <= a < 16 && 0 <= b < 16 && 0 <= c < 16 && 0 <= d < 16
    ensures Step(Step(Step(Step(Step(Step(l, 92), 117), Hex(a) as int), Hex(b) as int), Hex(c) as int), Hex(d) as int)
         == l.(mode := Inside(l.mode.units + [((a * 16 + b) * 16 + c) * 16 + d]))
  {
    var units := l.mode.units;
    HexReads(a);
    HexReads(b);
    HexReads(c);
    HexReads(d);
    assert Step(Step(l, 92), 117) == l.(mode := Digits(units, 0, 0));
    assert Step(l.(mode := Digits(units, 0, 0)), Hex(a) as int) == l.(mode := Digits(units, 1, a));
    assert Step(l.(mode := Digits(units, 1, a)), Hex(b) as int) == l.(mode := Digits(units, 2, a * 16 + b));
    assert Step(l.(mode := Digits(units, 2, a * 16 + b)), Hex(c) as int) == l.(mode := Digits(units, 3, (a * 16 + b) * 16 + c));
  }

  lemma HexDigits(u: int)
    requires 0 <= u < 0x10000
    ensures ((u / 4096 * 16 + u / 256 % 16) * 16 + u / 16 % 16) * 16 + u % 16 == u
  {
    var q := u / 16;
    var p := q / 16;
    assert p == u / 256 && p / 16 == u / 4096;
    assert u == q * 16 + u % 16 && q == p * 16 + q % 16 && p == p / 16 * 16 + p % 16;
  }

  lemma ReadSix(l: Reader, e: Bytes, a: int, b: int, c: int, d: int)
    requires l.Reader? && l.mode.Inside? && |e| == 6 && e[0] == 92 && e[1] == 117
    requires 0 <= a < 16 && 0 <= b < 16 && 0 <= c < 16 && 0 <= d < 16
    requires e[2] == Hex(a) && e[3] == Hex(b) && e[4] == Hex(c) && e[5] == Hex(d)
    ensures Run(l, e) == l.(mode := Inside(l.mode.units + [((a * 16 + b) * 16 + c) * 16 + d]))
  {
    assert Ascii(e);
    RunSix(l, e);
    StepSix(l, a, b, c, d);
  }

  /** One escape, read inside a string, is the code unit it was made from. */
  lemma ReadEscape(l: Reader, u: int)
    requires l.Reader? && l.mode.Inside? && 0 <= u < 0x10000
    ensures Run(l, UnicodeEscape(u)) == l.(mode := Inside(l.mode.units + [u]))
  {
    var a, b, c, d := EscapeSpelled(u, UnicodeEscape(u));
    ReadSix(l, UnicodeEscape(u), a, b, c, d);
  }

  lemma EscapeSpelled(u: int, e: Bytes) returns (a: int, b: int, c: int, d: int)
    requires 0 <= u < 0x10000 && e == UnicodeEscape(u)
    ensures e[0] == 92 && e[1] == 117
    ensures 0 <= a < 16 && 0 <= b < 16 && 0 <= c < 16 && 0 <= d < 16
    ensures e[2] == Hex(a) && e[3] == Hex(b) && e[4] == Hex(c) && e[5] == Hex(d)
    ensures ((a * 16 + b) * 16 + c) * 16 + d == u
  {
    a, b, c, d := u / 4096, u / 256 % 16, u / 16 % 16, u % 16;
    HexDigits(u);
  }

  /** A character and its escape are read alike wherever a JSON text may have the character. */
  lemma ReadEscapedChar(l: Reader, c: int)
    requires Scalar(c) && Step(l, c) != Failed
    ensures Ascii(EscapedChar(c)) && Run(l, EscapedChar(c)) == Step(l, c)
  {
    if c < 0x80 {
      assert [c as byte] == [c as byte] + [];
      RunByte(l, c as byte, []);
    } else if c < 0x10000 {
      ReadEscape(l, c);
    } else {
      var pair := Utf16(c);
      ReadEscape(l, pair[0]);
      var l1 := l.(mode := Inside(l.mode.units + [pair[0]]));
      ReadEscape(l1, pair[1]);
      RunAscii(l, UnicodeEscape(pair[0]), UnicodeEscape(pair[1]));
      assert l.mode.units + [pair[0]] + [pair[1]] == l.mode.units + pair;
    }
  }

  function Letters(s: Bytes): seq<int> {
    if s == [] then [] else [s[0] as int] + Letters(s[1..])
  }

  /** Letters and digits stand for themselves inside a string. */
  lemma {:induction false} PlainInside(l: Reader, s: Bytes)
    requires l.Reader? && l.mode.Inside? && forall i :: 0 <= i < |s| ==> 48 <= s[i] <= 57 || 97 <= s[i] <= 122
    ensures Run(l, s) == l.(mode := Inside(l.mode.units + Letters(s)))
    decreases |s|
  {
    var units := l.mode.units;
    if s == [] {
      assert units + Letters(s) == units;
    } else {
      assert s == [s[0]] + s[1..];
      RunByte(l, s[0], s[1..]);
      PlainInside(l.(mode := Inside(units + [s[0] as int])), s[1..]);
      assert units + [s[0] as int] + Letters(s[1..]) == units + Letters(s);
    }
  }

  /** What the escape of a character is read as right after a backslash: its own backslash is escaped, and the
      rest of a first escape stands for itself. */
  function StrayUnits(c: int): seq<int>
    requires Scalar(c) && 0x80 <= c
  {
    [92] + Letters(UnicodeEscape(Utf16(c)[0])[1..]) + Utf16(c)[1..]
  }

  lemma ReadStrayEscape(l: Reader, u: int)
    requires l.Reader? && l.mode.Escape? && 0 <= u < 0x10000
    ensures Run(l, UnicodeEscape(u)) == l.(mode := Inside(l.mode.units + ([92] + Letters(UnicodeEscape(u)[1..]))))
  {
    var e := UnicodeEscape(u);
    var a, b, c, d := EscapeSpelled(u, e);
    assert e == [92] + e[1..];
    ReadStrayBytes(l, e[1..]);
  }

  lemma ReadStrayBytes(l: Reader, t: Bytes)
    requires l.Reader? && l.mode.Escape? && forall i :: 0 <= i < |t| ==> 48 <= t[i] <= 57 || 97 <= t[i] <= 122
    ensures Run(l, [92] + t) == l.(mode := Inside(l.mode.units + ([92] + Letters(t))))
  {
    RunByte(l, 92, t);
    PlainInside(l.(mode := Inside(l.mode.units + [92])), t);
    assert l.mode.units + [92] + Letters(t) == l.mode.units + ([92] + Letters(t));
  }

  lemma ReadStray(l: Reader, c: int)
    requires l.Reader? && l.mode.Escape? && Scalar(c) && 0x80 <= c
    ensures Run(l, EscapedChar(c)) == l.(mode := Inside(l.mode.units + StrayUnits(c)))
  {
    var pair := Utf16(c);
    ReadStrayEscape(l, pair[0]);
    var units := l.mode.units + ([92] + Letters(UnicodeEscape(pair[0])[1..]));
    if c < 0x10000 {
      assert units == l.mode.units + StrayUnits(c);
    } else {
      RunAscii(l, UnicodeEscape(pair[0]), UnicodeEscape(pair[1]));
      ReadEscape(l.(mode := Inside(units)), pair[1]);
      assert units + [pair[1]] == l.mode.units + StrayUnits(c);
    }
  }

  /** A backslash and a letter that is none: what escaping turns into a reading of its own. */
  predicate StrayAt(l: Reader, c: int) { l.Reader? && l.mode.Escape? && 0x80 <= c }

  function StepLenient(l: Reader, c: int): Reader
    requires Scalar(c)
  {
    if StrayAt(l, c) then l.(mode := Inside(l.mode.units + StrayUnits(c))) else Step(l, c)
  }

  /** Wherever a character stands, its escape is read like it, failure included, except after a backslash. */
  lemma ReadAnyEscapedChar(l: Reader, c: int)
    requires Scalar(c)
    ensures Run(l, EscapedChar(c)) == StepLenient(l, c)
  {
    if StrayAt(l, c) {
      ReadStray(l, c);
    } else if Step(l, c) != Failed {
      ReadEscapedChar(l, c);
    } else {
      var e := EscapedChar(c);
      assert e == [e[0]] + e[1..];
      RunByte(l, e[0], e[1..]);
      FailedStays(e[1..]);
    }
  }

  /** The reader, reading a backslash before a non-ASCII character as escaping makes it read. */
  function RunLenient(l: Reader, data: Bytes): Reader
    decreases |data|
  {
    if data == [] then l
    else if Bad(data) then Failed
    else DecodedIsEncoded(data); RunLenient(StepLenient(l, DecodeRune(data).0), data[DecodeRune(data).1..])
  }

  /** The reader meets a backslash before a non-ASCII character. */
  predicate Stray(l: Reader, data: Bytes)
    decreases |data|
  {
    data != [] && !Bad(data) &&
    (DecodedIsEncoded(data);
     StrayAt(l, DecodeRune(data).0) || Stray(Step(l, DecodeRune(data).0), data[DecodeRune(data).1..]))
  }

  /** On UTF-8, reading what was escaped is the lenient reading of the original. */
  lemma {:induction false} ReadEscaped(l: Reader, data: Bytes)
    requires Decode(data).Some?
    ensures Run(l, Escaped(data)) == RunLenient(l, data)
    decreases |data|
  {
    if data != [] {
      DecodedIsEncoded(data);
      var (c, n) := DecodeRune(data);
      ReadAnyEscapedChar(l, c);
      RunAscii(l, EscapedChar(c), Escaped(data[n..]));
      ReadEscaped(StepLenient(l, c), data[n..]);
    }
  }

  lemma {:induction false} StrayFails(l: Reader, data: Bytes)
    ensures Stray(l, data) ==> Run(l, data) == Failed
    ensures !Stray(l, data) ==> RunLenient(l, data) == Run(l, data)
    decreases |data|
  {
    if data != [] && !Bad(data) {
      DecodedIsEncoded(data);
      var (c, n) := DecodeRune(data);
      if StrayAt(l, c) {
        FailedStays(data[n..]);
      } else {
        StrayFails(Step(l, c), data[n..]);
      }
    }
  }

  lemma {:induction false} ReadIsUtf8(l: Reader, data: Bytes)
    requires Run(l, data) != Failed
    ensures Decode(data).Some?
    decreases |data|
  {
    if data != [] {
      DecodedIsEncoded(data);
      ReadIsUtf8(Step(l, DecodeRune(data).0), data[DecodeRune(data).1..]);
    }
  }

  /** Every JSON text is escaped to pure ASCII that reads token for token, code unit for code unit, the same. */
  lemma EscapingKeepsMeaning(data: Bytes)
    requires JsonTokens(data).Some?
    ensures Ascii(Escaped(data)) && JsonTokens(Escaped(data)) == JsonTokens(data)
  {
    ReadIsUtf8(START, data);
    ReadEscaped(START, data);
    StrayFails(START, data);
    EscapedAscii(data);
  }

  /** Exactly when escaping a UTF-8 text keeps its reading, having none included: no string of it has a backslash
      before a non-ASCII character, or even read leniently it has no reading. */
  lemma EscapingExact(data: Bytes)
    requires Decode(data).Some?
    ensures JsonTokens(Escaped(data)) == TokensOf(RunLenient(START, data))
    ensures JsonTokens(Escaped(data)) == JsonTokens(data) <==>
            !Stray(START, data) || TokensOf(RunLenient(START, data)) == None
  {
    ReadEscaped(START, data);
    StrayFails(START, data);
  }

  /** Why the input has to be JSON: a string with a backslash before any non-ASCII character is not, but comes out
      as one with that backslash escaped. */
  lemma BackslashBeforeNonAscii(c: int, data: Bytes)
    requires Scalar(c) && 0x80 <= c && data == [34, 92] + (Utf8(c) + [34])
    ensures JsonTokens(data) == None
    ensures JsonTokens(Escaped(data)) == Some([Str(StrayUnits(c))])
  {
    var l, tail := Reader(Escape([]), []), Utf8(c) + [34];
    LenientPair(data, tail);
    StrayThenQuote(l, c, tail);
    assert l.mode.units + StrayUnits(c) == StrayUnits(c) && l.tokens + [Str(StrayUnits(c))] == [Str(StrayUnits(c))];
    DecodeLast(c, data);
    StrayFails(START, data);
    EscapingExact(data);
  }

  /** After a quote and a backslash. */
  lemma LenientPair(data: Bytes, tail: Bytes)
    requires data == [34, 92] + tail
    ensures RunLenient(START, data) == RunLenient(Reader(Escape([]), []), tail)
    ensures Stray(START, data) == Stray(Reader(Escape([]), []), tail)
  {
    assert data[0..] == data && data[2..] == tail;
    LenientByte(START, 34, data, 0);
    LenientByte(Reader(Inside([]), []), 92, data, 1);
  }

  lemma StrayThenQuote(l: Reader, c: int, tail: Bytes)
    requires l.Reader? && l.mode.Escape? && Scalar(c) && 0x80 <= c && tail == Utf8(c) + [34]
    ensures Stray(l, tail)
    ensures RunLenient(l, tail) == Reader(Outside, l.tokens + [Str(l.mode.units + StrayUnits(c))])
  {
    DecodesEncoded(c, [34]);
    assert tail[|Utf8(c)|..] == [34];
    var l1 := l.(mode := Inside(l.mode.units + StrayUnits(c)));
    assert [34][0..] == [34] && [34][1..] == [];
    LenientByte(l1, 34, [34], 0);
  }

  /** One ASCII byte further, read leniently or looked at for a stray backslash. */
  lemma LenientByte(l: Reader, b: byte, data: Bytes, k: nat)
    requires k < |data| && data[k] == b < 0x80
    ensures RunLenient(l, data[k..]) == RunLenient(Step(l, b as int), data[k + 1..])
    ensures Stray(l, data[k..]) == Stray(Step(l, b as int), data[k + 1..])
  {
    assert data[k..][0] == b && data[k..][1..] == data[k + 1..];
  }

  lemma DecodeLast(c: int, data: Bytes)
    requires Scalar(c) && data == [34, 92] + (Utf8(c) + [34])
    ensures Decode(data).Some?
  {
    var t := [34, 92, c, 34];
    assert t[1..] == [92, c, 34] && t[1..][1..] == [c, 34] && t[1..][1..][1..] == [34] && t[1..][1..][1..][1..] == [];
    assert Encode([34]) == [34] && Encode([c, 34]) == Utf8(c) + [34];
    assert Encode([92, c, 34]) == [92] + (Utf8(c) + [34]);
    assert Encode(t) == data;
    DecodeInvertsEncode(t);
  }
}
