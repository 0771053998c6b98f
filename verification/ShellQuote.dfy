/** The POSIX commands printed by internal/cli, against the quoting rules of sections 2.2.1 to 2.2.3 of the
    POSIX Shell Command Language. */
module ShellQuote {
  import opened Contents

  // -------------------------------------------------------------------- a shell's view

  datatype Mode =
    | Gap
    | Bare(word: string)
    | BareEscape(word: string)
    | Single(word: string)
    | Double(word: string)
    | DoubleEscape(word: string)

  datatype Shell = Failed | Shell(mode: Mode, words: seq<string>)

  predicate Blank(c: char) { c == ' ' || c == '\t' }

  /** Characters that stand for themselves outside quotes, wherever in a word. */
  predicate Plain(c: char) {
    'a' <= c <= 'z' || 'A' <= c <= 'Z' || '0' <= c <= '9' || c in {'_', '-', '.', '/', ',', ':', '+', '@', '%'}
  }

  /** One character outside quotes; anything with a further meaning to the shell is refused. */
  function BareStep(l: Shell, word: string, c: char): Shell
    requires l.Shell?
  {
    if c == '\'' then l.(mode := Single(word))
    else if c == '"' then l.(mode := Double(word))
    else if c == '\\' then l.(mode := BareEscape(word))
    else if Plain(c) then l.(mode := Bare(word + [c]))
    else Failed
  }

  function Step(l: Shell, c: char): Shell {
    if l.Failed? then Failed
    else match l.mode
      case Gap => if Blank(c) then l else BareStep(l, "", c)
      case Bare(word) => if Blank(c) then Shell(Gap, l.words + [word]) else BareStep(l, word, c)
      case BareEscape(word) => if c == '\n' then Failed else l.(mode := Bare(word + [c]))
      case Single(word) => l.(mode := if c == '\'' then Bare(word) else Single(word + [c]))
      case Double(word) =>
        if c == '"' then l.(mode := Bare(word))
        else if c == '\\' then l.(mode := DoubleEscape(word))
        else if c == '$' || c == '`' then Failed
        else l.(mode := Double(word + [c]))
      case DoubleEscape(word) =>
        if c in {'$', '`', '"', '\\'} then l.(mode := Double(word + [c]))
        else if c == '\n' then l.(mode := Double(word))
        else l.(mode := Double(word + ['\\', c]))
  }

  function Run(l: Shell, s: string): Shell
    decreases |s|
  {
    if s == "" then l else Run(Step(l, s[0]), s[1..])
  }

  const START := Shell(Gap, [])

  function Finish(l: Shell): Option<seq<string>> {
    match l
    case Shell(Gap, words) => Some(words)
    case Shell(Bare(word), words) => Some(words + [word])
    case _ => None
  }

  /** The words of a command line, None when it is not made of literal words only. */
  function Split(s: string): Option<seq<string>> { Finish(Run(START, s)) }

  lemma {:induction false} RunConcat(l: Shell, a: string, b: string)
    ensures Run(l, a + b) == Run(Run(l, a), b)
    decreases |a|
  {
    if a == "" {
      assert a + b == b;
    } else {
      assert (a + b)[1..] == a[1..] + b;
      RunConcat(Step(l, a[0]), a[1..], b);
    }
  }

  /** `ahead` words before the ones being read make no difference to them. */
  function Ahead(l: Shell, ahead: seq<string>): Shell {
    if l.Failed? then Failed else l.(words := ahead + l.words)
  }

  lemma {:induction false} RunAhead(l: Shell, ahead: seq<string>, s: string)
    ensures Run(Ahead(l, ahead), s) == Ahead(Run(l, s), ahead)
    decreases |s|
  {
    if s != "" {
      assert Step(Ahead(l, ahead), s[0]) == Ahead(Step(l, s[0]), ahead) by {
        assert l.Shell? && l.mode.Bare? ==> ahead + (l.words + [l.mode.word]) == ahead + l.words + [l.mode.word];
      }
      RunAhead(Step(l, s[0]), ahead, s[1..]);
    }
  }

  /** Two command lines side by side are the words of one and then the words of the other. */
  lemma SplitJoin(a: string, b: string)
    requires Split(a).Some? && Split(b).Some?
    ensures Split(a + " " + b) == Some(Split(a).value + Split(b).value)
  {
    RunConcat(START, a + " ", b);
    AfterSpace(a);
    var words := Split(a).value;
    assert Ahead(START, words) == Shell(Gap, words);
    RunAhead(START, words, b);
    var l := Run(START, b);
    assert l.mode.Bare? ==> words + (l.words + [l.mode.word]) == words + l.words + [l.mode.word];
  }

  lemma AfterSpace(a: string)
    requires Split(a).Some?
    ensures Run(START, a + " ") == Shell(Gap, Split(a).value)
  {
    RunConcat(START, a, " ");
    var l := Run(START, a);
    assert " "[1..] == "";
    assert Run(l, " ") == Run(Step(l, ' '), "");
  }

  // -------------------------------------------------------------------- quoting

  /** strings.ReplaceAll of a single quote by the closing, double-quoted and reopening sequence. */
  function Requoted(value: string): string {
    if value == "" then "" else (if value[0] == '\'' then "'\"'\"'" else [value[0]]) + Requoted(value[1..])
  }

  function PosixQuote(value: string): string { "'" + Requoted(value) + "'" }

  lemma ReadApostrophe(l: Shell)
    requires l.Shell? && l.mode.Single?
    ensures Run(l, "'\"'\"'") == l.(mode := Single(l.mode.word + "'"))
  {
    var s := "'\"'\"'";
    assert s[1..] == "\"'\"'" && s[1..][1..] == "'\"'" && s[1..][1..][1..] == "\"'" && s[1..][1..][1..][1..] == "'";
    assert "'"[1..] == "";
    var w := l.mode.word;
    assert Run(l, s) == Run(l.(mode := Bare(w)), s[1..]);
    assert Run(l.(mode := Bare(w)), s[1..]) == Run(l.(mode := Double(w)), "'\"'");
    assert Run(l.(mode := Double(w)), "'\"'") == Run(l.(mode := Double(w + "'")), "\"'");
    assert Run(l.(mode := Double(w + "'")), "\"'") == Run(l.(mode := Bare(w + "'")), "'");
  }

  lemma {:induction false} ReadRequoted(l: Shell, value: string)
    requires l.Shell? && l.mode.Single?
    ensures Run(l, Requoted(value)) == l.(mode := Single(l.mode.word + value))
    decreases |value|
  {
    if value == "" {
      assert l.mode.word + value == l.mode.word;
    } else {
      var head := if value[0] == '\'' then "'\"'\"'" else [value[0]];
      RunConcat(l, head, Requoted(value[1..]));
      var l1 := l.(mode := Single(l.mode.word + [value[0]]));
      if value[0] == '\'' {
        ReadApostrophe(l);
      } else {
        assert head[1..] == "";
        assert Run(l, head) == Run(Step(l, value[0]), "");
      }
      ReadRequoted(l1, value[1..]);
      assert l.mode.word + [value[0]] + value[1..] == l.mode.word + value;
    }
  }

  /** A quoted argument is one word, whatever it contains. */
  lemma QuotedIsOneWord(value: string)
    ensures Split(PosixQuote(value)) == Some([value])
  {
    var body := Requoted(value);
    assert PosixQuote(value) == "'" + (body + "'");
    RunConcat(START, "'", body + "'");
    assert "'"[1..] == "" && Run(START, "'") == Run(Step(START, '\''), "");
    var l := Shell(Single(""), []);
    RunConcat(l, body, "'");
    ReadRequoted(l, value);
    assert "" + value == value;
    var l1 := Shell(Single(value), []);
    assert Run(l1, "'") == Run(Step(l1, '\''), "");
    assert l1.words + [value] == [value];
  }

  /** strings.Join with one space, of the executable and the arguments, each quoted. */
  function Quoted(executable: string, args: seq<string>): string {
    if args == [] then PosixQuote(executable)
    else Quoted(executable, args[..|args| - 1]) + " " + PosixQuote(args[|args| - 1])
  }

  lemma {:induction false} QuotedSplits(executable: string, args: seq<string>)
    ensures Split(Quoted(executable, args)) == Some([executable] + args)
    decreases |args|
  {
    if args == [] {
      QuotedIsOneWord(executable);
      assert [executable] + args == [executable];
    } else {
      var n := |args| - 1;
      QuotedSplits(executable, args[..n]);
      QuotedIsOneWord(args[n]);
      SplitJoin(Quoted(executable, args[..n]), PosixQuote(args[n]));
      assert [executable] + args[..n] + [args[n]] == [executable] + args;
    }
  }

  /** hostInteractionCommand outside Windows: a shell reads back the executable first and every argument last, and
      between them --repo and the root exactly when the root is known and the arguments do not name it themselves.
      `executable` and `root` are None when they cannot be determined. */
  method HostInteractionCommand(executable: Option<string>, root: Option<string>, args: seq<string>) returns (line: string)
    ensures Split(line).Some?
    ensures var words := Split(line).value;
            var named := |args| >= 2 && args[0] == "--repo";
            && |words| == 1 + (if root.Some? && !named then 2 else 0) + |args|
            && words[0] == (if executable.Some? then executable.value else "aoci")
            && (root.Some? && !named ==> words[1] == "--repo" && words[2] == root.value)
            && words[|words| - |args|..] == args
  {
    var exe := if executable.Some? then executable.value else "aoci";
    var named := args;
    if |args| < 2 || args[0] != "--repo" {
      if root.Some? {
        named := ["--repo", root.value] + args;
      }
    }
    line := QuoteAll(exe, named);
    ghost var words := [exe] + named;
    assert words[|words| - |args|..] == args;
  }

  /** The appending loop and the join. */
  method QuoteAll(exe: string, args: seq<string>) returns (line: string)
    ensures Split(line) == Some([exe] + args)
  {
    line := PosixQuote(exe);
    for i := 0 to |args|
      invariant line == Quoted(exe, args[..i])
    {
      assert args[..i + 1][..i] == args[..i];
      line := line + " " + PosixQuote(args[i]);
    }
    assert args[..|args|] == args;
    QuotedSplits(exe, args);
  }

  // -------------------------------------------------------------------- the agent command prefix

  /** normalizeAgentExecutablePath, where the separator is a slash. */
  function Normalized(path: string): (r: string)
    ensures |r| == |path|
    ensures forall i :: 0 <= i < |r| ==> r[i] == if path[i] == '\\' then '/' else path[i]
  {
    if path == "" then "" else [if path[0] == '\\' then '/' else path[0]] + Normalized(path[1..])
  }

  lemma NormalizedSame(path: string)
    ensures Normalized(path) == path <==> '\\' !in path
  {
    if '\\' in path {
      var i :| 0 <= i < |path| && path[i] == '\\';
      assert Normalized(path)[i] == '/';
    }
  }

  predicate Space(c: char) {
    || '\t' <= c <= '\r' || c == ' ' || c == '\U{85}' || c == '\U{A0}' || c == '\U{1680}'
    || '\U{2000}' <= c <= '\U{200A}'
    || c in {'\U{2028}', '\U{2029}', '\U{202F}', '\U{205F}', '\U{3000}'}
  }

  predicate AllSpace(s: string) { forall i :: 0 <= i < |s| ==> Space(s[i]) }

  predicate HasControl(s: string) { '\0' in s || '\r' in s || '\n' in s }

  predicate Absolute(path: string) { path != "" && path[0] == '/' }

  datatype Refusal = RootEmpty | RootControl | RootNotAbsolute | ExecutableControl | ExecutableNotAbsolute

  datatype Prefix = Prefix(line: string) | Refused(why: Refusal)

  /** agentCommandPrefixFor outside Windows. */
  method AgentCommandPrefix(executable: string, root: string) returns (r: Prefix)
    ensures r.Prefix? <==> Usable(executable) && Usable(root)
    ensures r.Prefix? ==> Split(r.line) == Some([Normalized(executable), "--repo", Normalized(root)])
    ensures r.Prefix? ==> (Split(r.line) == Some([executable, "--repo", root]) <==> '\\' !in executable && '\\' !in root)
    ensures r == Refused(RootEmpty) <==> AllWhite(root)
    ensures r == Refused(RootControl) <==> !AllWhite(root) && Breaks(root)
    ensures r == Refused(RootNotAbsolute) <==> !AllWhite(root) && !Breaks(root) && !Usable(root)
    ensures r == Refused(ExecutableControl) <==> Usable(root) && Breaks(executable)
    ensures r == Refused(ExecutableNotAbsolute) <==> Usable(root) && !Breaks(executable) && !Usable(executable)
  {
    NormalizedSame(root);
    NormalizedSame(executable);
    NormalizedKeeps(root);
    NormalizedKeeps(executable);
    assert AllSpace(root) <==> AllWhite(root);
    BreaksMeans(root);
    BreaksMeans(executable);
    var argument := Normalized(root);
    if AllSpace(argument) {
      return Refused(RootEmpty);
    }
    if HasControl(argument) {
      return Refused(RootControl);
    }
    if !Absolute(argument) {
      return Refused(RootNotAbsolute);
    }
    var exe := Normalized(executable);
    if HasControl(exe) {
      return Refused(ExecutableControl);
    }
    if !Absolute(exe) {
      return Refused(ExecutableNotAbsolute);
    }
    PrefixSplits(exe, argument);
    return Prefix(PosixQuote(exe) + " --repo " + PosixQuote(argument));
  }

  /** What a caller can check beforehand: no NUL, CR or LF, ... */
  ghost predicate Breaks(s: string) { exists i :: 0 <= i < |s| && s[i] as int in {0, 10, 13} }

  /** ... and an absolute path, in either slash. */
  ghost predicate Usable(path: string) {
    path != "" && path[0] in {'/', '\\'} && !Breaks(path)
  }

  lemma BreaksMeans(s: string)
    ensures HasControl(s) <==> Breaks(s)
  {
    if HasControl(s) {
      var c :| c in {'\0', '\r', '\n'} && c in s;
      var i :| 0 <= i < |s| && s[i] == c;
    }
  }

  lemma NormalizedKeeps(path: string)
    ensures HasControl(Normalized(path)) <==> HasControl(path)
    ensures AllSpace(Normalized(path)) <==> AllSpace(path)
    ensures Absolute(Normalized(path)) <==> path != "" && path[0] in {'/', '\\'}
  {
    var n := Normalized(path);
    forall c | c in {'\0', '\r', '\n'} ensures c in n <==> c in path {
      if c in path {
        var i :| 0 <= i < |path| && path[i] == c;
        assert n[i] == c;
      }
    }
    assert forall i :: 0 <= i < |path| ==> (Space(n[i]) <==> Space(path[i]));
  }

  lemma PrefixSplits(exe: string, root: string)
    ensures Split(PosixQuote(exe) + " --repo " + PosixQuote(root)) == Some([exe, "--repo", root])
  {
    QuotedIsOneWord(exe);
    QuotedIsOneWord(root);
    RepoIsOneWord();
    SplitJoin("--repo", PosixQuote(root));
    var rest := "--repo" + " " + PosixQuote(root);
    SplitJoin(PosixQuote(exe), rest);
    assert PosixQuote(exe) + " --repo " + PosixQuote(root) == PosixQuote(exe) + " " + rest;
    assert [exe] + (["--repo"] + [root]) == [exe, "--repo", root];
  }

  lemma {:induction false} ReadPlain(l: Shell, s: string)
    requires l.Shell? && l.mode.Bare? && forall i :: 0 <= i < |s| ==> Plain(s[i])
    ensures Run(l, s) == l.(mode := Bare(l.mode.word + s))
    decreases |s|
  {
    if s == "" {
      assert l.mode.word + s == l.mode.word;
    } else {
      ReadPlain(l.(mode := Bare(l.mode.word + [s[0]])), s[1..]);
      assert l.mode.word + [s[0]] + s[1..] == l.mode.word + s;
    }
  }

  lemma PlainIsOneWord(s: string)
    requires s != "" && forall i :: 0 <= i < |s| ==> Plain(s[i])
    ensures Split(s) == Some([s])
  {
    var l := Shell(Bare("" + [s[0]]), []);
    assert Run(START, s) == Run(l, s[1..]);
    ReadPlain(l, s[1..]);
    assert "" + [s[0]] + s[1..] == s && l.words + [s] == [s];
  }

  lemma RepoIsOneWord()
    ensures Split("--repo") == Some(["--repo"])
  {
    PlainIsOneWord("--repo");
  }

  // -------------------------------------------------------------------- binding

  function TrimLeft(s: string): string {
    if s != "" && Space(s[0]) then TrimLeft(s[1..]) else s
  }

  function TrimRight(s: string): string {
    if s != "" && Space(s[|s| - 1]) then TrimRight(s[..|s| - 1]) else s
  }

  /** bindAgentCommand. */
  function Bound(command: string, prefix: string): string {
    var c := TrimRight(TrimLeft(command));
    if c == "" then ""
    else if c == "aoci" then prefix
    else if "aoci " <= c then prefix + c[4..]
    else c
  }

  /** unicode.IsSpace, by code point. */
  ghost predicate WhiteSpace(c: char) {
    var u := c as int;
    u in {9, 10, 11, 12, 13, 32, 0x85, 0xA0, 0x1680, 0x2028, 0x2029, 0x202F, 0x205F, 0x3000} || 0x2000 <= u <= 0x200A
  }

  ghost predicate AllWhite(s: string) { forall i :: 0 <= i < |s| ==> WhiteSpace(s[i]) }

  lemma {:induction false} TrimLeftPads(pad: string, rest: string)
    requires AllWhite(pad) && (rest != "" ==> !WhiteSpace(rest[0]))
    ensures TrimLeft(pad + rest) == rest
    decreases |pad|
  {
    if pad == "" {
      assert pad + rest == rest;
    } else {
      assert (pad + rest)[0] == pad[0] && (pad + rest)[1..] == pad[1..] + rest;
      TrimLeftPads(pad[1..], rest);
    }
  }

  lemma {:induction false} TrimRightPads(core: string, pad: string)
    requires AllWhite(pad) && (core != "" ==> !WhiteSpace(core[|core| - 1]))
    ensures TrimRight(core + pad) == core
    decreases |pad|
  {
    if pad == "" {
      assert core + pad == core;
    } else {
      var n := |pad| - 1;
      assert (core + pad)[|core + pad| - 1] == pad[n] && (core + pad)[..|core + pad| - 1] == core + pad[..n];
      TrimRightPads(core, pad[..n]);
    }
  }

  /** What binding makes of a command with any white space around it: nothing of nothing, the prefix in place of a
      bare aoci and in front of its arguments, and every other command as it is. */
  lemma BoundMeans(left: string, core: string, right: string, prefix: string)
    requires AllWhite(left) && AllWhite(right)
    requires core != "" ==> !WhiteSpace(core[0]) && !WhiteSpace(core[|core| - 1])
    ensures var r := Bound(left + core + right, prefix);
            && (core == "" ==> r == "")
            && (core == "aoci" ==> r == prefix)
            && (forall rest :: core == "aoci " + rest ==> r == prefix + " " + rest)
            && (core != "aoci" && !("aoci " <= core) ==> r == core)
  {
    if core == "" {
      assert left + core + right == left + right + "";
      TrimLeftPads(left + right, "");
    } else {
      assert left + core + right == left + (core + right);
      TrimLeftPads(left, core + right);
      TrimRightPads(core, right);
    }
    forall rest | core == "aoci " + rest ensures Bound(left + core + right, prefix) == prefix + " " + rest {
      assert core[4..] == " " + rest && "aoci " <= core;
      assert prefix + core[4..] == prefix + " " + rest;
    }
  }

  /** Binding replaces the bare program by the words of the prefix and keeps every argument. */
  lemma BindingKeepsArguments(left: string, rest: string, right: string, prefix: string)
    requires AllWhite(left) && AllWhite(right) && rest != "" && !WhiteSpace(rest[|rest| - 1])
    requires Split(prefix).Some? && Split("aoci " + rest).Some?
    ensures var words := Split("aoci " + rest).value;
            && |words| >= 1 && words[0] == "aoci"
            && Split(Bound(left + ("aoci " + rest) + right, prefix)) == Some(Split(prefix).value + words[1..])
  {
    var core := "aoci " + rest;
    BoundMeans(left, core, right, prefix);
    PlainIsOneWord("aoci");
    assert core == "aoci" + " " + rest;
    RunConcat(START, "aoci" + " ", rest);
    AfterSpace("aoci");
    assert Ahead(START, ["aoci"]) == Shell(Gap, ["aoci"]);
    RunAhead(START, ["aoci"], rest);
    TailSplits(["aoci"], rest);
    SplitJoin("aoci", rest);
    SplitJoin(prefix, rest);
  }

  lemma TailSplits(ahead: seq<string>, tail: string)
    requires Finish(Ahead(Run(START, tail), ahead)).Some?
    ensures Split(tail).Some?
  {
  }
}
