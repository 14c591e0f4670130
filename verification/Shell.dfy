/** The shell command lines the builders print, read back by the shell's own quoting rules. */
module Shell {
  import opened Options
  import opened Ordering

  // ----- the shell: POSIX.1-2017 XCU, sections 2.2.1 (escape), 2.2.2 (single) and 2.2.3 (double quotes)

  datatype Quote = Bare | Single | Double

  /** The words of a simple command and what follows them, from the first operator on. */
  datatype Lexed =
    | Words(words: seq<string>, rest: string)
    | Unterminated
    | Expanded   // an unquoted character would trigger an expansion or a comment

  predicate IsBlank(c: char) {
    c == ' ' || c == '\t'
  }

  predicate IsOperator(c: char) {
    c == '|' || c == '&' || c == ';' || c == '<' || c == '>' || c == '(' || c == ')' || c == '\n'
  }

  predicate IsSpecial(c: char) {
    c == '$' || c == '`' || c == '*' || c == '?' || c == '[' || c == '#' || c == '~'
  }

  /** What a backslash still escapes between double quotes, the newline apart. */
  predicate IsEscapable(c: char) {
    c == '$' || c == '`' || c == '"' || c == '\\'
  }

  function Prepend(ws: seq<string>, l: Lexed): Lexed {
    match l case Words(words, rest) => Words(ws + words, rest) case _ => l
  }

  /** open tells whether a word has been started, and word is what it holds so far. */
  function Lex(s: string, quote: Quote, open: bool, word: string): Lexed
    decreases |s|
  {
    if s == "" then
      if quote != Bare then Unterminated else Words(if open then [word] else [], "")
    else
      var c, tail := s[0], s[1..];
      match quote
      case Single => if c == '\'' then Lex(tail, Bare, true, word) else Lex(tail, Single, true, word + [c])
      case Double =>
        if c == '"' then Lex(tail, Bare, true, word)
        else if c == '$' || c == '`' then Expanded
        else if c == '\\' && tail != "" && tail[0] == '\n' then Lex(tail[1..], Double, true, word)
        else if c == '\\' && tail != "" && IsEscapable(tail[0]) then Lex(tail[1..], Double, true, word + [tail[0]])
        else Lex(tail, Double, true, word + [c])
      case Bare =>
        if c == '\'' then Lex(tail, Single, true, word)
        else if c == '"' then Lex(tail, Double, true, word)
        else if c == '\\' then
          if tail == "" then Unterminated
          else if tail[0] == '\n' then Lex(tail[1..], Bare, open, word)
          else Lex(tail[1..], Bare, true, word + [tail[0]])
        else if IsBlank(c) then Prepend(if open then [word] else [], Lex(tail, Bare, false, ""))
        else if IsOperator(c) then Words(if open then [word] else [], s)
        else if IsSpecial(c) then Expanded
        else Lex(tail, Bare, true, word + [c])
  }

  function ReadCommand(line: string): Lexed {
    Lex(line, Bare, false, "")
  }

  // ----- the two quoting functions

  /** strings.ReplaceAll(s, "'", sub) */
  function ReplaceQuotes(s: string, sub: string): string {
    if s == "" then "" else (if s[0] == '\'' then sub else [s[0]]) + ReplaceQuotes(s[1..], sub)
  }

  /** build.go closes the quotes around a double-quoted quote; codebuild.go around an escaped one. */
  const DOUBLE_QUOTED := "'\"'\"'"
  const ESCAPED := "'\\''"

  function QuoteWith(s: string, sub: string): string {
    "'" + ReplaceQuotes(s, sub) + "'"
  }

  function ShQuote(s: string): string {
    QuoteWith(s, DOUBLE_QUOTED)
  }

  lemma LexSubstitute(sub: string, rest: string, word: string)
    requires sub == DOUBLE_QUOTED || sub == ESCAPED
    ensures Lex(sub + rest, Single, true, word) == Lex(rest, Single, true, word + "'")
  {
    if sub == DOUBLE_QUOTED {
      assert (sub + rest)[1..] == "\"'\"'" + rest;
      assert ("\"'\"'" + rest)[1..] == "'\"'" + rest;
      assert ("'\"'" + rest)[1..] == "\"'" + rest;
      assert ("\"'" + rest)[1..] == "'" + rest;
      assert ("'" + rest)[1..] == rest;
      calc {
        Lex(sub + rest, Single, true, word);
        Lex("\"'\"'" + rest, Bare, true, word);
        Lex("'\"'" + rest, Double, true, word);
        Lex("\"'" + rest, Double, true, word + "'");
        Lex("'" + rest, Bare, true, word + "'");
        Lex(rest, Single, true, word + "'");
      }
    } else {
      assert (sub + rest)[1..] == "\\''" + rest;
      assert ("\\''" + rest)[1..] == "''" + rest;
      assert ("''" + rest)[1..] == "'" + rest;
      assert ("'" + rest)[1..] == rest;
      calc {
        Lex(sub + rest, Single, true, word);
        Lex("\\''" + rest, Bare, true, word);
        Lex("'" + rest, Bare, true, word + "'");
        Lex(rest, Single, true, word + "'");
      }
    }
  }

  lemma {:induction false} LexInSingle(s: string, sub: string, rest: string, word: string)
    requires sub == DOUBLE_QUOTED || sub == ESCAPED
    ensures Lex(ReplaceQuotes(s, sub) + "'" + rest, Single, true, word) == Lex(rest, Bare, true, word + s)
    decreases |s|
  {
    if s == "" {
      assert ReplaceQuotes(s, sub) + "'" + rest == "'" + rest;
      assert ("'" + rest)[1..] == rest && word + s == word;
    } else {
      LexInSingle(s[1..], sub, rest, word + [s[0]]);
      assert word + [s[0]] + s[1..] == word + s;
      LexFirstInSingle(s, sub, ReplaceQuotes(s[1..], sub) + "'" + rest, word);
      FirstReplaced(s, sub, "'" + rest);
      Regroup(ReplaceQuotes(s, sub), "'", rest);
      Regroup(ReplaceQuotes(s[1..], sub), "'", rest);
    }
  }

  function Replaced(c: char, sub: string): string {
    if c == '\'' then sub else [c]
  }

  lemma FirstReplaced(s: string, sub: string, rest: string)
    requires s != ""
    ensures ReplaceQuotes(s, sub) + rest == Replaced(s[0], sub) + (ReplaceQuotes(s[1..], sub) + rest)
  {
  }

  lemma LexFirstInSingle(s: string, sub: string, tail: string, word: string)
    requires s != "" && (sub == DOUBLE_QUOTED || sub == ESCAPED)
    ensures Lex(Replaced(s[0], sub) + tail, Single, true, word) == Lex(tail, Single, true, word + [s[0]])
  {
    if s[0] == '\'' {
      LexSubstitute(sub, tail, word);
    } else {
      assert ([s[0]] + tail)[1..] == tail;
    }
  }

  /** Any string, quoted either way, reads back as itself, as part of whatever word it stands in. */
  lemma QuotedReadsBack(s: string, sub: string, rest: string, open: bool, word: string)
    requires sub == DOUBLE_QUOTED || sub == ESCAPED
    ensures Lex(QuoteWith(s, sub) + rest, Bare, open, word) == Lex(rest, Bare, true, word + s)
  {
    var tail := ReplaceQuotes(s, sub) + "'" + rest;
    assert QuoteWith(s, sub) + rest == "'" + tail;
    assert ("'" + tail)[1..] == tail;
    LexInSingle(s, sub, rest, word);
  }

  /** The two ways of quoting stand for the same single word. */
  lemma BothEscapesAgree(s: string)
    ensures ReadCommand(QuoteWith(s, DOUBLE_QUOTED)) == Words([s], "")
    ensures ReadCommand(QuoteWith(s, ESCAPED)) == Words([s], "")
  {
    QuotedReadsBack(s, DOUBLE_QUOTED, "", false, "");
    QuotedReadsBack(s, ESCAPED, "", false, "");
    assert QuoteWith(s, DOUBLE_QUOTED) + "" == QuoteWith(s, DOUBLE_QUOTED);
    assert QuoteWith(s, ESCAPED) + "" == QuoteWith(s, ESCAPED);
    assert "" + s == s;
  }

  // ----- building a command from its words

  /** What may follow a word. */
  predicate EndsWord(rest: string) {
    rest == "" || IsBlank(rest[0]) || IsOperator(rest[0])
  }

  lemma CloseWord(rest: string, word: string)
    requires EndsWord(rest)
    ensures Lex(rest, Bare, true, word) == Prepend([word], Lex(rest, Bare, false, ""))
  {
    if rest != "" && IsBlank(rest[0]) {
      var l := Lex(rest[1..], Bare, false, "");
      assert Prepend([word], l) == Prepend([word], Prepend([], l));
    }
  }

  lemma AfterBlank(tail: string)
    ensures Lex(" " + tail, Bare, false, "") == Lex(tail, Bare, false, "")
  {
    assert (" " + tail)[1..] == tail;
    var l := Lex(tail, Bare, false, "");
    assert Prepend([], l) == l;
  }

  /** A character the shell takes as it is. */
  predicate IsPlainChar(c: char) {
    'a' <= c <= 'z' || c == '-' || c == '=' || c == '.'
  }

  predicate IsPlain(s: string) {
    forall i :: 0 <= i < |s| ==> IsPlainChar(s[i])
  }

  lemma LexPlainChar(c: char, tail: string, open: bool, word: string)
    requires IsPlainChar(c)
    ensures Lex([c] + tail, Bare, open, word) == Lex(tail, Bare, true, word + [c])
  {
    assert ([c] + tail)[1..] == tail;
  }

  lemma {:induction false} LexPlain(s: string, rest: string, word: string)
    requires IsPlain(s)
    ensures Lex(s + rest, Bare, true, word) == Lex(rest, Bare, true, word + s)
    decreases |s|
  {
    if s == "" {
      assert s + rest == rest && word + s == word;
    } else {
      assert s + rest == [s[0]] + (s[1..] + rest);
      LexPlainChar(s[0], s[1..] + rest, true, word);
      LexPlain(s[1..], rest, word + [s[0]]);
      assert word + [s[0]] + s[1..] == word + s;
    }
  }

  /** A word of the command, and how it is written. */
  datatype Piece = Plain(value: string) | Quoted(value: string)

  predicate IsPiece(p: Piece) {
    p.Plain? ==> p.value != "" && IsPlain(p.value)
  }

  function Written(p: Piece): string {
    match p case Plain(s) => s case Quoted(s) => ShQuote(s)
  }

  /** Every word brings its own leading blank. */
  function Render(ps: seq<Piece>): string {
    if ps == [] then "" else " " + Written(ps[0]) + Render(ps[1..])
  }

  function Values(ps: seq<Piece>): seq<string> {
    if ps == [] then [] else [ps[0].value] + Values(ps[1..])
  }

  lemma {:induction false} RenderAppend(a: seq<Piece>, b: seq<Piece>)
    ensures Render(a + b) == Render(a) + Render(b)
    ensures Values(a + b) == Values(a) + Values(b)
  {
    if a == [] {
      assert a + b == b;
    } else {
      assert (a + b)[0] == a[0] && (a + b)[1..] == a[1..] + b;
      RenderAppend(a[1..], b);
    }
  }

  lemma LexPiece(p: Piece, rest: string)
    requires IsPiece(p) && EndsWord(rest)
    ensures Lex(" " + Written(p) + rest, Bare, false, "") == Prepend([p.value], Lex(rest, Bare, false, ""))
  {
    assert " " + Written(p) + rest == " " + (Written(p) + rest);
    AfterBlank(Written(p) + rest);
    match p {
      case Plain(s) => LexFirstPlain(s, rest);
      case Quoted(s) => LexFirstQuoted(s, rest);
    }
    CloseWord(rest, p.value);
  }

  lemma LexFirstPlain(s: string, rest: string)
    requires IsPlain(s) && s != ""
    ensures Lex(s + rest, Bare, false, "") == Lex(rest, Bare, true, s)
  {
    assert s + rest == [s[0]] + (s[1..] + rest);
    LexPlainChar(s[0], s[1..] + rest, false, "");
    assert "" + [s[0]] == [s[0]] && [s[0]] + s[1..] == s;
    LexPlain(s[1..], rest, [s[0]]);
  }

  lemma LexFirstQuoted(s: string, rest: string)
    ensures Lex(ShQuote(s) + rest, Bare, false, "") == Lex(rest, Bare, true, s)
  {
    QuotedReadsBack(s, DOUBLE_QUOTED, rest, false, "");
    assert "" + s == s;
  }

  lemma RenderEnds(ps: seq<Piece>, rest: string)
    requires EndsWord(rest)
    ensures EndsWord(Render(ps) + rest)
  {
    if ps == [] {
      assert Render(ps) + rest == rest;
    } else {
      assert (Render(ps) + rest)[0] == ' ';
    }
  }

  lemma PrependTwice(a: seq<string>, b: seq<string>, l: Lexed)
    ensures Prepend(a, Prepend(b, l)) == Prepend(a + b, l)
  {
    if l.Words? {
      assert a + (b + l.words) == a + b + l.words;
    }
  }

  /** What is written as a list of words reads back as those words. */
  lemma {:induction false} RenderedReadsBack(ps: seq<Piece>, rest: string)
    requires AllPieces(ps) && EndsWord(rest)
    ensures Lex(Render(ps) + rest, Bare, false, "") == Prepend(Values(ps), Lex(rest, Bare, false, ""))
  {
    if ps == [] {
      assert Render(ps) + rest == rest;
      PrependNothing(Lex(rest, Bare, false, ""));
    } else {
      assert AllPieces(ps[1..]);
      RenderEnds(ps[1..], rest);
      RenderedReadsBack(ps[1..], rest);
      FirstPieceReads(ps[0], Render(ps[1..]) + rest, Values(ps[1..]), Lex(rest, Bare, false, ""));
      assert Render(ps) + rest == " " + Written(ps[0]) + (Render(ps[1..]) + rest);
    }
  }

  lemma PrependNothing(l: Lexed)
    ensures Prepend([], l) == l
  {
  }

  lemma FirstPieceReads(p: Piece, tail: string, words: seq<string>, l: Lexed)
    requires IsPiece(p) && EndsWord(tail) && Lex(tail, Bare, false, "") == Prepend(words, l)
    ensures Lex(" " + Written(p) + tail, Bare, false, "") == Prepend([p.value] + words, l)
  {
    LexPiece(p, tail);
    PrependTwice([p.value], words, l);
  }

  // ----- the docker buildx line

  datatype BuildInputs = BuildInputs(
    dockerfile: Option<string>, target: Option<string>, args: map<string, string>, destination: string)

  /** What the build is meant to run, with the build arguments in the order of keys. */
  function Argv(inputs: BuildInputs, keys: seq<string>): seq<string>
    requires forall k :: k in keys ==> k in inputs.args
  {
    ["docker", "buildx", "build", PROGRESS] + (["-f", Dockerfile(inputs)]
    + (TargetWords(inputs) + (ArgWords(inputs.args, keys) + (["-t", inputs.destination] + ["--push", "."]))))
  }

  predicate IsSet(o: Option<string>) {
    o.Some? && o.value != ""
  }

  function Dockerfile(inputs: BuildInputs): string {
    if IsSet(inputs.dockerfile) then inputs.dockerfile.value else "Dockerfile"
  }

  function TargetWords(inputs: BuildInputs): seq<string> {
    if IsSet(inputs.target) then ["--target", inputs.target.value] else []
  }

  function ArgWords(args: map<string, string>, keys: seq<string>): seq<string>
    requires forall k :: k in keys ==> k in args
  {
    if keys == [] then [] else [BUILD_ARG, keys[0] + "=" + args[keys[0]]] + ArgWords(args, keys[1..])
  }

  lemma {:induction false} ArgWordsAppend(args: map<string, string>, keys: seq<string>, k: string)
    requires (forall x :: x in keys ==> x in args) && k in args
    ensures ArgWords(args, keys + [k]) == ArgWords(args, keys) + [BUILD_ARG, k + "=" + args[k]]
  {
    if keys == [] {
      assert keys + [k] == [k] && [k][1..] == [];
    } else {
      assert (keys + [k])[0] == keys[0] && (keys + [k])[1..] == keys[1..] + [k];
      ArgWordsAppend(args, keys[1..], k);
    }
  }

  function Flag(flag: string, value: string): seq<Piece> {
    [Plain(flag), Quoted(value)]
  }

  function FlagText(flag: string, value: string): string {
    " " + flag + " " + ShQuote(value)
  }

  lemma FlagRendered(flag: string, value: string)
    requires IsPlain(flag) && flag != ""
    ensures Render(Flag(flag, value)) == FlagText(flag, value)
    ensures Values(Flag(flag, value)) == [flag, value]
    ensures AllPieces(Flag(flag, value))
  {
    var ps := Flag(flag, value);
    assert ps[1..] == [Quoted(value)] && ps[1..][1..] == [];
    assert Render(ps[1..]) == " " + ShQuote(value) + "";
    assert Values(ps[1..]) == [value] + [];
  }

  predicate AllPieces(ps: seq<Piece>) {
    forall p :: p in ps ==> IsPiece(p)
  }

  lemma RenderCons(p: Piece, ps: seq<Piece>)
    requires IsPiece(p) && AllPieces(ps)
    ensures Render([p] + ps) == " " + Written(p) + Render(ps)
    ensures Values([p] + ps) == [p.value] + Values(ps)
    ensures AllPieces([p] + ps)
  {
    assert ([p] + ps)[1..] == ps;
  }

  /** The text of four plain words, the first without its blank. */
  function FourText(a: string, b: string, c: string, d: string): string {
    a + (" " + b + (" " + c + (" " + d)))
  }

  lemma FourRendered(a: string, b: string, c: string, d: string)
    requires IsPlain(a) && IsPlain(b) && IsPlain(c) && IsPlain(d) && a != "" && b != "" && c != "" && d != ""
    ensures Writes(" " + FourText(a, b, c, d), [a, b, c, d])
  {
    var last := " " + c + (" " + d);
    TwoRendered(c, d);
    OneMoreRendered(b, last, [c, d]);
    Regroup(" ", c, " " + d);
    Regroup(" ", b, last);
    OneMoreRendered(a, " " + (b + last), [b] + [c, d]);
    Regroup(" ", a, " " + (b + last));
    FourWords(a, b, c, d);
    FourTextIs(a, b, c, d);
  }

  lemma FourTextIs(a: string, b: string, c: string, d: string)
    ensures FourText(a, b, c, d) == a + (" " + (b + (" " + c + (" " + d))))
  {
    Regroup(" ", b, " " + c + (" " + d));
  }

  lemma FourWords(a: string, b: string, c: string, d: string)
    ensures [a] + ([b] + [c, d]) == [a, b, c, d]
  {
  }

  lemma Regroup(a: string, b: string, c: string)
    ensures a + b + c == a + (b + c)
  {
  }

  lemma OneMoreRendered(a: string, text: string, words: seq<string>)
    requires IsPlain(a) && a != "" && Writes(text, words)
    ensures Writes(" " + a + text, [a] + words)
  {
    var ps :| AllPieces(ps) && Render(ps) == text && Values(ps) == words;
    RenderCons(Plain(a), ps);
    assert AllPieces([Plain(a)] + ps);
  }

  lemma TwoRendered(a: string, b: string)
    requires IsPlain(a) && IsPlain(b) && a != "" && b != ""
    ensures Writes(" " + a + (" " + b), [a, b])
  {
    assert AllPieces([]) && Render([]) == "" && Values([]) == [];
    OneMoreRendered(b, "", []);
    assert " " + b + "" == " " + b && [b] + [] == [b];
    OneMoreRendered(a, " " + b, [b]);
    assert [a] + [b] == [a, b];
  }

  const REDIRECT := "> /root/build.log 2>&1\n"
  const PROGRESS := "--progress=plain"
  const BUILD_ARG := "--build-arg"

  lemma FixedWordsArePlain()
    ensures IsPlain("docker") && IsPlain("buildx") && IsPlain("build") && IsPlain("-f") && IsPlain("-t")
    ensures IsPlain(".") && IsPlain("--push") && IsPlain("--target")
  {
  }

  lemma LongWordsArePlain()
    ensures IsPlain(PROGRESS) && IsPlain(BUILD_ARG)
  {
  }

  // ----- what docker makes of the words

  datatype Request = Request(
    dockerfile: string, target: Option<string>, buildArgs: seq<string>, tag: string,
    push: bool, plainProgress: bool, context: string)

  /** docker buildx build: options in any order, and the context last. */
  function ReadOptions(argv: seq<string>, r: Request): Option<Request>
    decreases |argv|
  {
    if argv == [] then None
    else if |argv| == 1 then Some(r.(context := argv[0]))
    else if argv[0] == "--progress=plain" then ReadOptions(argv[1..], r.(plainProgress := true))
    else if argv[0] == "--push" then ReadOptions(argv[1..], r.(push := true))
    else if argv[0] == "-f" then ReadOptions(argv[2..], r.(dockerfile := argv[1]))
    else if argv[0] == "-t" then ReadOptions(argv[2..], r.(tag := argv[1]))
    else if argv[0] == "--target" then ReadOptions(argv[2..], r.(target := Some(argv[1])))
    else if argv[0] == "--build-arg" then ReadOptions(argv[2..], r.(buildArgs := r.buildArgs + [argv[1]]))
    else None
  }

  const NO_REQUEST := Request("", None, [], "", false, false, "")

  function ReadBuildx(argv: seq<string>): Option<Request> {
    if |argv| >= 3 && argv[..3] == ["docker", "buildx", "build"] then ReadOptions(argv[3..], NO_REQUEST) else None
  }

  function Pairs(args: map<string, string>, keys: seq<string>): seq<string>
    requires forall k :: k in keys ==> k in args
  {
    seq(|keys|, i requires 0 <= i < |keys| => keys[i] + "=" + args[keys[i]])
  }

  /** The build that the inputs ask for. */
  function Wanted(inputs: BuildInputs, keys: seq<string>): Request
    requires forall k :: k in keys ==> k in inputs.args
  {
    Request(
      match inputs.dockerfile { case Some(f) => (if f == "" then "Dockerfile" else f) case None => "Dockerfile" },
      match inputs.target { case Some(t) => (if t == "" then None else Some(t)) case None => None },
      Pairs(inputs.args, keys), inputs.destination, true, true, ".")
  }

  /** Docker reads the intended words back as the inputs they were made from. */
  lemma DockerReads(inputs: BuildInputs, keys: seq<string>)
    requires forall k :: k in keys ==> k in inputs.args
    ensures ReadBuildx(Argv(inputs, keys)) == Some(Wanted(inputs, keys))
  {
    var f, t := Dockerfile(inputs), TargetWords(inputs);
    var last := ["-t", inputs.destination] + ["--push", "."];
    var more := ArgWords(inputs.args, keys) + last;
    var r0 := NO_REQUEST.(plainProgress := true);
    var r1 := r0.(dockerfile := f);
    var r2 := if IsSet(inputs.target) then r1.(target := inputs.target) else r1;
    assert Argv(inputs, keys)[..3] == ["docker", "buildx", "build"];
    assert Argv(inputs, keys)[3..] == [PROGRESS] + (["-f", f] + (t + more));
    assert ReadOptions([PROGRESS] + (["-f", f] + (t + more)), NO_REQUEST) == ReadOptions(["-f", f] + (t + more), r0) by {
      OneWord(PROGRESS, ["-f", f] + (t + more));
    }
    assert ReadOptions(["-f", f] + (t + more), r0) == ReadOptions(t + more, r1) by {
      TwoWords("-f", f, t + more);
    }
    TargetRead(inputs, more, r1);
    ReadArgs(inputs.args, keys, last, r2);
    LastWords(inputs.destination, r2.(buildArgs := Pairs(inputs.args, keys)));
    assert [] + Pairs(inputs.args, keys) == Pairs(inputs.args, keys);
  }

  lemma TargetRead(inputs: BuildInputs, more: seq<string>, r: Request)
    requires |more| >= 2
    ensures ReadOptions(TargetWords(inputs) + more, r)
         == ReadOptions(more, if IsSet(inputs.target) then r.(target := inputs.target) else r)
  {
    if IsSet(inputs.target) {
      TwoWords("--target", inputs.target.value, more);
    } else {
      assert [] + more == more;
    }
  }

  lemma OneWord(w: string, rest: seq<string>)
    ensures ([w] + rest)[0] == w && ([w] + rest)[1..] == rest
  {
  }

  lemma TwoWords(flag: string, value: string, rest: seq<string>)
    ensures var ws := [flag, value] + rest; ws[0] == flag && ws[1] == value && ws[2..] == rest
  {
  }

  lemma LastWords(destination: string, r: Request)
    ensures ReadOptions(["-t", destination] + ["--push", "."], r)
         == Some(r.(tag := destination, push := true, context := "."))
  {
    TwoWords("-t", destination, ["--push", "."]);
    assert ["--push", "."][1..] == ["."];
  }

  lemma {:induction false} ReadArgs(args: map<string, string>, keys: seq<string>, rest: seq<string>, r: Request)
    requires (forall k :: k in keys ==> k in args) && |rest| >= 2
    ensures ReadOptions(ArgWords(args, keys) + rest, r)
         == ReadOptions(rest, r.(buildArgs := r.buildArgs + Pairs(args, keys)))
    decreases |keys|
  {
    if keys == [] {
      assert ArgWords(args, keys) + rest == rest && r.buildArgs + Pairs(args, keys) == r.buildArgs;
    } else {
      var pair, tail := keys[0] + "=" + args[keys[0]], ArgWords(args, keys[1..]) + rest;
      assert ArgWords(args, keys) + rest == [BUILD_ARG, pair] + tail;
      TwoWords(BUILD_ARG, pair, tail);
      ReadArgs(args, keys[1..], rest, r.(buildArgs := r.buildArgs + [pair]));
      assert r.buildArgs + [pair] + Pairs(args, keys[1..]) == r.buildArgs + Pairs(args, keys);
    }
  }

  /** The line's words, up to the redirection, are read as the build that the inputs ask for. */
  ghost predicate AsksFor(line: string, inputs: BuildInputs) {
    exists argv, keys :: IsListing(keys, inputs.args.Keys)
      && ReadCommand(line) == Words(argv, "> /root/build.log 2>&1\n") && ReadBuildx(argv) == Some(Wanted(inputs, keys))
  }

  /** Lexing the rendered line gives back the intended words, and stops at the redirection. */
  method RenderBuildLine(inputs: BuildInputs) returns (line: string)
    ensures exists keys :: IsListing(keys, inputs.args.Keys) && ReadCommand(line) == Words(Argv(inputs, keys), REDIRECT)
    ensures AsksFor(line, inputs)
  {
    var dockerfile := "Dockerfile";
    if inputs.dockerfile.Some? && inputs.dockerfile.value != "" {
      dockerfile := inputs.dockerfile.value;
    }
    var sorted := SortedKeys(inputs.args.Keys);
    var buildArgs := RenderBuildArgs(inputs.args, sorted);
    var target := "";
    if inputs.target.Some? && inputs.target.value != "" {
      target := FlagText("--target", inputs.target.value);
    }
    line := FourText("docker", "buildx", "build", PROGRESS) + (FlagText("-f", dockerfile) + (target + (buildArgs
         + (FlagText("-t", inputs.destination) + (" " + "--push" + (" " + ".") + (" " + REDIRECT))))));
    LineReadsBack(inputs, dockerfile, target, sorted, buildArgs);
    DockerReads(inputs, sorted);
  }

  /** text is the written form of words. */
  ghost predicate Writes(text: string, words: seq<string>) {
    exists ps :: AllPieces(ps) && Render(ps) == text && Values(ps) == words
  }

  method RenderBuildArgs(args: map<string, string>, sorted: seq<string>) returns (text: string)
    requires forall k :: k in sorted ==> k in args
    ensures Writes(text, ArgWords(args, sorted))
  {
    text := "";
    ghost var pieces: seq<Piece> := [];
    for i := 0 to |sorted|
      invariant text == Render(pieces) && AllPieces(pieces)
      invariant Values(pieces) == ArgWords(args, sorted[..i])
    {
      var k := sorted[i];
      assert sorted[..i + 1] == sorted[..i] + [k];
      ArgWordsAppend(args, sorted[..i], k);
      LongWordsArePlain();
      ArgRendered(pieces, BUILD_ARG, k + "=" + args[k]);
      pieces := pieces + Flag(BUILD_ARG, k + "=" + args[k]);
      text := text + FlagText(BUILD_ARG, k + "=" + args[k]);
    }
    assert sorted[..|sorted|] == sorted;
  }

  lemma ArgRendered(pieces: seq<Piece>, flag: string, value: string)
    requires AllPieces(pieces) && IsPlain(flag) && flag != ""
    ensures Render(pieces + Flag(flag, value)) == Render(pieces) + FlagText(flag, value)
    ensures Values(pieces + Flag(flag, value)) == Values(pieces) + [flag, value]
    ensures AllPieces(pieces + Flag(flag, value))
  {
    FlagRendered(flag, value);
    RenderAppend(pieces, Flag(flag, value));
  }

  /** From the redirection backwards, each part is read and what follows it is left alone. */
  lemma LineReadsBack(inputs: BuildInputs, dockerfile: string, target: string, keys: seq<string>, buildArgs: string)
    requires (forall k :: k in keys ==> k in inputs.args) && dockerfile == Dockerfile(inputs)
    requires target == if IsSet(inputs.target) then FlagText("--target", inputs.target.value) else ""
    requires Writes(buildArgs, ArgWords(inputs.args, keys))
    ensures ReadCommand(FourText("docker", "buildx", "build", PROGRESS) + (FlagText("-f", dockerfile) + (target + (buildArgs
         + (FlagText("-t", inputs.destination) + (" " + "--push" + (" " + ".") + (" " + REDIRECT)))))))
      == Words(Argv(inputs, keys), REDIRECT)
  {
    FixedWordsArePlain();
    LongWordsArePlain();
    FlagWrites("-f", dockerfile);
    FlagWrites("-t", inputs.destination);
    assert Writes(target, TargetWords(inputs)) by {
      if IsSet(inputs.target) {
        FlagWrites("--target", inputs.target.value);
      } else {
        assert AllPieces([]) && Render([]) == target && Values([]) == TargetWords(inputs);
      }
    }
    FourRendered("docker", "buildx", "build", PROGRESS);
    TwoRendered("--push", ".");
    Chain(FourText("docker", "buildx", "build", PROGRESS), ["docker", "buildx", "build", PROGRESS],
          FlagText("-f", dockerfile), ["-f", dockerfile], target, TargetWords(inputs),
          buildArgs, ArgWords(inputs.args, keys), FlagText("-t", inputs.destination), ["-t", inputs.destination],
          " " + "--push" + (" " + "."), ["--push", "."]);
  }

  lemma FlagWrites(flag: string, value: string)
    requires IsPlain(flag) && flag != ""
    ensures Writes(FlagText(flag, value), [flag, value])
  {
    FlagRendered(flag, value);
    assert AllPieces(Flag(flag, value));
  }

  lemma Chain(head: string, ws0: seq<string>, f: string, ws1: seq<string>, target: string, ws2: seq<string>,
              buildArgs: string, ws3: seq<string>, t: string, ws4: seq<string>, push: string, ws5: seq<string>)
    requires Writes(" " + head, ws0) && Writes(f, ws1) && Writes(target, ws2) && Writes(buildArgs, ws3)
    requires Writes(t, ws4) && Writes(push, ws5)
    ensures ReadCommand(head + (f + (target + (buildArgs + (t + (push + (" " + REDIRECT)))))))
         == Words(ws0 + (ws1 + (ws2 + (ws3 + (ws4 + ws5)))), REDIRECT)
  {
    var r0 := " " + REDIRECT;
    var r1 := push + r0;
    var r2 := t + r1;
    var r3 := buildArgs + r2;
    var r4 := target + r3;
    var r5 := f + r4;
    RedirectReads(r0);
    PartReads(push, ws5, r0, []);
    assert ws5 + [] == ws5;
    PartReads(t, ws4, r1, ws5);
    PartReads(buildArgs, ws3, r2, ws4 + ws5);
    PartReads(target, ws2, r3, ws3 + (ws4 + ws5));
    PartReads(f, ws1, r4, ws2 + (ws3 + (ws4 + ws5)));
    FirstReads(head, ws0, r5, ws1 + (ws2 + (ws3 + (ws4 + ws5))));
  }

  lemma FirstReads(head: string, ws: seq<string>, rest: string, words: seq<string>)
    requires Writes(" " + head, ws) && ReadsAs(rest, words)
    ensures ReadCommand(head + rest) == Words(ws + words, REDIRECT)
  {
    PartReads(" " + head, ws, rest, words);
    AfterBlank(head + rest);
    Regroup(" ", head, rest);
  }

  ghost predicate ReadsAs(text: string, words: seq<string>) {
    EndsWord(text) && Lex(text, Bare, false, "") == Words(words, REDIRECT)
  }

  lemma RedirectReads(r0: string)
    requires r0 == " " + REDIRECT
    ensures ReadsAs(r0, [])
  {
    AfterBlank(REDIRECT);
  }

  lemma PartReads(text: string, ws: seq<string>, rest: string, words: seq<string>)
    requires Writes(text, ws) && ReadsAs(rest, words)
    ensures ReadsAs(text + rest, ws + words)
  {
    var ps :| AllPieces(ps) && Render(ps) == text && Values(ps) == ws;
    RenderedReadsBack(ps, rest);
    RenderEnds(ps, rest);
  }
}
