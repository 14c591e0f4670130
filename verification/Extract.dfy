/** Finding the JSON objects in mixed output: extract_json_objects of compare/compare.py. */
module Extract {
  import opened Options
  import opened Selections

  // ----- Python's str.strip

  predicate IsSpace(c: char) {
    var n := c as int;
    || 9 <= n <= 13 || 28 <= n <= 32 || n == 0x85 || n == 0xA0 || n == 0x1680
    || 0x2000 <= n <= 0x200A || n == 0x2028 || n == 0x2029 || n == 0x202F || n == 0x205F || n == 0x3000
  }

  function StripLeft(s: string): string {
    if s != [] && IsSpace(s[0]) then StripLeft(s[1..]) else s
  }

  function StripRight(s: string): string {
    if s != [] && IsSpace(s[|s| - 1]) then StripRight(s[..|s| - 1]) else s
  }

  function Strip(s: string): string {
    StripRight(StripLeft(s))
  }

  lemma {:induction false} StripRightKeepsHead(s: string)
    requires s != [] && !IsSpace(s[0])
    ensures StripRight(s) != [] && StripRight(s)[0] == s[0]
  {
    if IsSpace(s[|s| - 1]) {
      StripRightKeepsHead(s[..|s| - 1]);
    }
  }

  lemma {:induction false} StripLeftPadding(pad: string, rest: string)
    requires (forall c :: c in pad ==> IsSpace(c)) && rest != [] && !IsSpace(rest[0])
    ensures StripLeft(pad + rest) == rest
  {
    if pad == [] {
      assert pad + rest == rest;
    } else {
      assert (pad + rest)[0] == pad[0] && (pad + rest)[1..] == pad[1..] + rest;
      StripLeftPadding(pad[1..], rest);
    }
  }

  // ----- the scanner

  /** The loop's variables. */
  datatype State = State(depth: int, buf: string, inString: bool, escapeNext: bool)

  const START := State(0, "", false, false)

  /** One iteration, before the buffer is flushed. */
  function Advance(s: State, ch: char): State {
    if s.escapeNext then
      s.(buf := s.buf + [ch], escapeNext := false)
    else if ch == '\\' && s.inString then
      s.(buf := s.buf + [ch], escapeNext := true)
    else
      var inString := if ch == '"' then !s.inString else s.inString;
      var depth :=
        if !inString && ch == '{' then s.depth + 1
        else if !inString && ch == '}' then s.depth - 1
        else s.depth;
      var buf := if depth > 0 || (depth == 0 && s.buf != "") then s.buf + [ch] else s.buf;
      State(depth, buf, inString, false)
  }

  /** The branches for escapes go round the flush. */
  predicate Flushes(s: State, ch: char) {
    && !s.escapeNext && !(ch == '\\' && s.inString)
    && Advance(s, ch).depth == 0 && Advance(s, ch).buf != ""
  }

  function Next(s: State, ch: char): State {
    if Flushes(s, ch) then Advance(s, ch).(buf := "") else Advance(s, ch)
  }

  function After(s: State, text: string): State
    decreases text
  {
    if text == "" then s else After(Next(s, text[0]), text[1..])
  }

  /** The buffers flushed on the way. */
  function Flushed(s: State, text: string): seq<string>
    decreases text
  {
    if text == "" then []
    else
      (if Flushes(s, text[0]) then [Advance(s, text[0]).buf] else []) + Flushed(Next(s, text[0]), text[1..])
  }

  /** A flushed buffer is handed to the JSON parser, stripped, if it looks like a non-empty object. */
  predicate LooksLikeObject(raw: string) {
    && raw != [] && raw[0] == '{'
    && var inner := StripLeft(raw[1..]); inner != [] && inner[0] == '"'
  }

  function CandidateOf(buf: string): seq<string> {
    if LooksLikeObject(Strip(buf)) then [Strip(buf)] else []
  }

  function Collect<T, U>(f: T -> seq<U>, s: seq<T>): seq<U> {
    if s == [] then [] else f(s[0]) + Collect(f, s[1..])
  }

  lemma {:induction false} CollectAppend<T, U>(f: T -> seq<U>, a: seq<T>, b: seq<T>)
    ensures Collect(f, a + b) == Collect(f, a) + Collect(f, b)
  {
    if a == [] {
      assert a + b == b;
    } else {
      assert (a + b)[0] == a[0] && (a + b)[1..] == a[1..] + b;
      CollectAppend(f, a[1..], b);
      assert f(a[0]) + (Collect(f, a[1..]) + Collect(f, b)) == f(a[0]) + Collect(f, a[1..]) + Collect(f, b);
    }
  }

  lemma CollectOne<T, U>(f: T -> seq<U>, x: T)
    ensures Collect(f, [x]) == f(x)
  {
    assert [x][1..] == [];
    assert f(x) + [] == f(x);
  }

  function Candidates(flushed: seq<string>): seq<string> {
    Collect(CandidateOf, flushed)
  }

  lemma {:induction false} RunAppend(s: State, a: string, b: string)
    ensures After(s, a + b) == After(After(s, a), b)
    ensures Flushed(s, a + b) == Flushed(s, a) + Flushed(After(s, a), b)
    decreases a
  {
    if a == [] {
      assert a + b == b;
    } else {
      assert (a + b)[0] == a[0] && (a + b)[1..] == a[1..] + b;
      RunAppend(Next(s, a[0]), a[1..], b);
    }
  }

  lemma RunOne(s: State, ch: char)
    ensures After(s, [ch]) == Next(s, ch)
    ensures Flushed(s, [ch]) == if Flushes(s, ch) then [Advance(s, ch).buf] else []
  {
    assert [ch][1..] == [];
  }

  /**
   * json.loads is a parameter: it parses its argument or rejects it, which only costs a warning. One value
   * comes back, in order, for each candidate it accepts.
   */
  method ExtractJsonObjects<T>(text: string, loads: string -> Option<T>) returns (objects: seq<T>)
    ensures IsSelection(Candidates(Flushed(START, text)), loads, objects)
  {
    objects := [];
    EmptySelection(loads);
    var depth, buf, inString, escapeNext := 0, "", false, false;
    ghost var flushed: seq<string> := [];
    for i := 0 to |text|
      invariant After(START, text[..i]) == State(depth, buf, inString, escapeNext)
      invariant Flushed(START, text[..i]) == flushed
      invariant IsSelection(Candidates(flushed), loads, objects)
    {
      var ch := text[i];
      NextStep(text, i);
      if escapeNext {
        buf, escapeNext := buf + [ch], false;
        continue;
      }
      if ch == '\\' && inString {
        buf, escapeNext := buf + [ch], true;
        continue;
      }
      if ch == '"' {
        inString := !inString;
      }
      if !inString {
        if ch == '{' {
          depth := depth + 1;
        } else if ch == '}' {
          depth := depth - 1;
        }
      }
      if depth > 0 || (depth == 0 && buf != []) {
        buf := buf + [ch];
      }
      if depth == 0 && buf != [] {
        var raw := Strip(buf);
        OneMoreFlushed(flushed, buf, loads, objects);
        if LooksLikeObject(raw) {
          var r := loads(raw);
          if r.Some? {
            objects := objects + [r.value];
          }
        }
        flushed := flushed + [buf];
        buf := [];
      }
    }
    assert text[..|text|] == text;
  }

  lemma NextStep(text: string, i: nat)
    requires i < |text|
    ensures var s := After(START, text[..i]);
      && After(START, text[..i + 1]) == Next(s, text[i])
      && Flushed(START, text[..i + 1])
         == Flushed(START, text[..i]) + if Flushes(s, text[i]) then [Advance(s, text[i]).buf] else []
  {
    assert text[..i + 1] == text[..i] + [text[i]];
    RunAppend(START, text[..i], [text[i]]);
    RunOne(After(START, text[..i]), text[i]);
  }

  lemma OneMoreFlushed<T>(flushed: seq<string>, buf: string, loads: string -> Option<T>, objects: seq<T>)
    requires IsSelection(Candidates(flushed), loads, objects)
    ensures var raw, after := Strip(buf), Candidates(flushed + [buf]);
      && (LooksLikeObject(raw) && loads(raw).Some? ==> IsSelection(after, loads, objects + [loads(raw).value]))
      && (LooksLikeObject(raw) && loads(raw).None? ==> IsSelection(after, loads, objects))
      && (!LooksLikeObject(raw) ==> IsSelection(after, loads, objects))
  {
    CollectAppend(CandidateOf, flushed, [buf]);
    CollectOne(CandidateOf, buf);
    SelectionGrows(Candidates(flushed), loads, objects, Strip(buf));
    assert objects + [] == objects && Candidates(flushed) + [] == Candidates(flushed);
  }

  // ----- JSON objects in plain text

  /** A string's characters; \uXXXX is the escape 'u' followed by four plain digits. */
  datatype StrChar = Plain(c: char) | Escape(c: char)

  /** JSON text with its insignificant white space (RFC 8259, sections 2 to 7). */
  datatype Json =
    | Scalar(token: string)
    | Str(chars: seq<StrChar>)
    | Arr(pad: string, items: Items)
    | Obj(pad: string, members: Members)

  datatype Items = NoItems | Item(before: string, value: Json, after: string, rest: Items)

  datatype Members =
    | NoMembers
    | Member(before: string, key: seq<StrChar>, beforeColon: string, afterColon: string,
             value: Json, after: string, rest: Members)

  predicate IsPad(s: string) {
    forall c :: c in s ==> c in " \t\n\r"
  }

  /** Numbers and the three literals, and any other text that has no quote and no brace. */
  predicate IsInert(s: string) {
    '"' !in s && '{' !in s && '}' !in s
  }

  predicate WellFormedChars(chars: seq<StrChar>) {
    forall k :: k in chars ==> k.Plain? ==> k.c != '"' && k.c != '\\'
  }

  predicate WellFormed(v: Json) {
    match v
    case Scalar(token) => IsInert(token)
    case Str(chars) => WellFormedChars(chars)
    case Arr(pad, items) => IsPad(pad) && WellFormedItems(items)
    case Obj(pad, members) => IsPad(pad) && WellFormedMembers(members)
  }

  predicate WellFormedItems(items: Items) {
    items.Item? ==>
      IsPad(items.before) && IsPad(items.after) && WellFormed(items.value) && WellFormedItems(items.rest)
  }

  predicate WellFormedMembers(m: Members) {
    m.Member? ==>
      && IsPad(m.before) && IsPad(m.beforeColon) && IsPad(m.afterColon) && IsPad(m.after)
      && WellFormedChars(m.key) && WellFormed(m.value) && WellFormedMembers(m.rest)
  }

  function CharsText(chars: seq<StrChar>): string {
    if chars == [] then ""
    else CharText(chars[0]) + CharsText(chars[1..])
  }

  function StrText(chars: seq<StrChar>): string {
    "\"" + CharsText(chars) + "\""
  }

  function Text(v: Json): string {
    match v
    case Scalar(token) => token
    case Str(chars) => StrText(chars)
    case Arr(pad, items) => "[" + pad + ItemsText(items) + "]"
    case Obj(pad, members) => "{" + (pad + MembersText(members)) + "}"
  }

  function ItemsText(items: Items): string {
    match items
    case NoItems => ""
    case Item(before, value, after, rest) =>
      before + Text(value) + after + (if rest.NoItems? then "" else ",") + ItemsText(rest)
  }

  function MembersText(m: Members): string {
    match m
    case NoMembers => ""
    case Member(before, key, beforeColon, afterColon, value, after, rest) =>
      before + StrText(key) + (beforeColon + ":" + afterColon) + Text(value)
      + (after + if rest.NoMembers? then "" else ",") + MembersText(rest)
  }

  /** Inside an object and outside any string. */
  function Inside(depth: int, buf: string): State {
    State(depth, buf, false, false)
  }

  /** text takes the scanner from s to t, and flushes nothing on the way. */
  ghost predicate Silent(s: State, text: string, t: State) {
    After(s, text) == t && Flushed(s, text) == []
  }

  lemma SilentConcat(s: State, a: string, t: State, b: string, u: State)
    requires Silent(s, a, t) && Silent(t, b, u)
    ensures Silent(s, a + b, u)
  {
    RunAppend(s, a, b);
  }

  lemma SilentOne(s: State, ch: char)
    requires !Flushes(s, ch)
    ensures Silent(s, [ch], Next(s, ch))
  {
    RunOne(s, ch);
  }

  /** text is swallowed whole at any depth inside an object, leaving depth and quoting as they were. */
  ghost predicate SwallowedAt(depth: int, buf: string, text: string) {
    Silent(Inside(depth, buf), text, Inside(depth, buf + text))
  }

  ghost predicate Swallowed(text: string) {
    forall depth, buf :: depth >= 1 ==> SwallowedAt(depth, buf, text)
  }

  lemma SwallowedConcat(a: string, b: string)
    requires Swallowed(a) && Swallowed(b)
    ensures Swallowed(a + b)
  {
    forall depth, buf: string | depth >= 1 ensures SwallowedAt(depth, buf, a + b) {
      assert SwallowedAt(depth, buf, a) && SwallowedAt(depth, buf + a, b);
      SwallowedInTurn(depth, buf, a, b);
    }
  }

  lemma SwallowedInTurn(depth: int, buf: string, a: string, b: string)
    requires SwallowedAt(depth, buf, a) && SwallowedAt(depth, buf + a, b)
    ensures SwallowedAt(depth, buf, a + b)
  {
    SilentConcat(Inside(depth, buf), a, Inside(depth, buf + a), b, Inside(depth, buf + a + b));
    assert buf + a + b == buf + (a + b);
  }

  lemma {:induction false} InertRun(depth: int, buf: string, s: string)
    requires IsInert(s) && depth >= 1
    ensures SwallowedAt(depth, buf, s)
    decreases s
  {
    if s == [] {
      assert buf + s == buf;
    } else {
      var next := buf + [s[0]];
      InertRun(depth, next, s[1..]);
      assert next + s[1..] == buf + s;
    }
  }

  lemma InertSwallowed(s: string)
    requires IsInert(s)
    ensures Swallowed(s)
  {
    forall depth, buf | depth >= 1 ensures SwallowedAt(depth, buf, s) {
      InertRun(depth, buf, s);
    }
  }

  function CharText(k: StrChar): string {
    match k case Plain(c) => [c] case Escape(c) => ['\\', c]
  }

  function Quoted(depth: int, buf: string): State {
    State(depth, buf, true, false)
  }

  /** Inside a string nothing but its end matters. */
  ghost predicate SwallowedInString(depth: int, buf: string, text: string) {
    Silent(Quoted(depth, buf), text, Quoted(depth, buf + text))
  }

  lemma CharRun(depth: int, buf: string, k: StrChar)
    requires (k.Plain? ==> k.c != '"' && k.c != '\\') && depth >= 1
    ensures SwallowedInString(depth, buf, CharText(k))
  {
    var s := Quoted(depth, buf);
    if k.Escape? {
      var t := Next(s, '\\');
      SilentOne(s, '\\');
      SilentOne(t, k.c);
      SilentConcat(s, ['\\'], t, [k.c], Next(t, k.c));
      assert ['\\'] + [k.c] == CharText(k);
      assert buf + ['\\'] + [k.c] == buf + CharText(k);
    } else {
      SilentOne(s, k.c);
    }
  }

  lemma {:induction false} CharsRun(depth: int, buf: string, chars: seq<StrChar>)
    requires WellFormedChars(chars) && depth >= 1
    ensures SwallowedInString(depth, buf, CharsText(chars))
    decreases chars
  {
    if chars == [] {
      assert buf + CharsText(chars) == buf;
    } else {
      assert chars[0] in chars;
      CharRun(depth, buf, chars[0]);
      CharsRun(depth, buf + CharText(chars[0]), chars[1..]);
      MoreInString(depth, buf, CharText(chars[0]), CharsText(chars[1..]));
    }
  }

  lemma MoreInString(depth: int, buf: string, head: string, tail: string)
    requires depth >= 1 && SwallowedInString(depth, buf, head) && SwallowedInString(depth, buf + head, tail)
    ensures SwallowedInString(depth, buf, head + tail)
  {
    SilentConcat(Quoted(depth, buf), head, Quoted(depth, buf + head), tail, Quoted(depth, buf + head + tail));
    assert buf + head + tail == buf + (head + tail);
  }

  lemma StrSwallowed(chars: seq<StrChar>)
    requires WellFormedChars(chars)
    ensures Swallowed(StrText(chars))
  {
    forall depth, buf: string | depth >= 1 ensures SwallowedAt(depth, buf, StrText(chars)) {
      StrRun(depth, buf, CharsText(chars), chars);
    }
  }

  lemma StrRun(depth: int, buf: string, body: string, chars: seq<StrChar>)
    requires WellFormedChars(chars) && depth >= 1 && body == CharsText(chars)
    ensures SwallowedAt(depth, buf, "\"" + body + "\"")
  {
    CharsRun(depth, buf + "\"", chars);
    Quotes(depth, buf, body);
  }

  lemma Quotes(depth: int, buf: string, body: string)
    requires depth >= 1 && SwallowedInString(depth, buf + "\"", body)
    ensures SwallowedAt(depth, buf, "\"" + body + "\"")
  {
    var s, inside := Inside(depth, buf), Quoted(depth, buf + "\"");
    var read, closed := Quoted(depth, buf + "\"" + body), Inside(depth, buf + "\"" + body + "\"");
    SilentOne(s, '"');
    SilentOne(read, '"');
    SilentConcat(s, "\"", inside, body, read);
    SilentConcat(s, "\"" + body, read, "\"", closed);
    assert buf + "\"" + body + "\"" == buf + ("\"" + body + "\"");
  }

  lemma {:induction false} ValueSwallowed(v: Json)
    requires WellFormed(v)
    ensures Swallowed(Text(v))
    decreases v
  {
    match v {
      case Scalar(token) => InertSwallowed(token);
      case Str(chars) => StrSwallowed(chars);
      case Arr(pad, items) =>
        ItemsSwallowed(items);
        InertSwallowed("[" + pad);
        InertSwallowed("]");
        SwallowedConcat("[" + pad, ItemsText(items));
        SwallowedConcat("[" + pad + ItemsText(items), "]");
      case Obj(pad, members) =>
        forall depth, buf: string | depth >= 1 ensures SwallowedAt(depth, buf, Text(v)) {
          ObjectRun(depth, buf, pad, members);
        }
    }
  }

  lemma {:induction false} ItemsSwallowed(items: Items)
    requires WellFormedItems(items)
    ensures Swallowed(ItemsText(items))
    decreases items
  {
    match items {
      case NoItems => InertSwallowed("");
      case Item(before, value, after, rest) =>
        var tail := after + if rest.NoItems? then "" else ",";
        ValueSwallowed(value);
        ItemsSwallowed(rest);
        InertSwallowed(before);
        InertSwallowed(tail);
        SwallowedConcat(before, Text(value));
        SwallowedConcat(before + Text(value), tail);
        SwallowedConcat(before + Text(value) + tail, ItemsText(rest));
        assert ItemsText(items) == before + Text(value) + tail + ItemsText(rest);
    }
  }

  lemma {:induction false} MembersSwallowed(m: Members)
    requires WellFormedMembers(m)
    ensures Swallowed(MembersText(m))
    decreases m, 0
  {
    match m {
      case NoMembers => InertSwallowed("");
      case Member(before, key, beforeColon, afterColon, value, after, rest) =>
        var colon, tail := beforeColon + ":" + afterColon, after + if rest.NoMembers? then "" else ",";
        StrSwallowed(key);
        ValueSwallowed(value);
        MembersSwallowed(rest);
        InertSwallowed(before);
        InertSwallowed(colon);
        InertSwallowed(tail);
        SwallowedConcat(before, StrText(key));
        SwallowedConcat(before + StrText(key), colon);
        SwallowedConcat(before + StrText(key) + colon, Text(value));
        SwallowedConcat(before + StrText(key) + colon + Text(value), tail);
        SwallowedConcat(before + StrText(key) + colon + Text(value) + tail, MembersText(rest));
    }
  }

  /** An object opens one level, swallows its members there, and closes the level again. */
  lemma ObjectRun(depth: int, buf: string, pad: string, members: Members)
    requires IsPad(pad) && WellFormedMembers(members) && depth >= 0 && (depth == 0 ==> buf == "")
    ensures depth > 0 ==> SwallowedAt(depth, buf, Text(Obj(pad, members)))
    ensures depth == 0 ==> After(START, Text(Obj(pad, members))) == START
    ensures depth == 0 ==> Flushed(START, Text(Obj(pad, members))) == [Text(Obj(pad, members))]
    decreases members, 1
  {
    MembersSwallowed(members);
    InertSwallowed(pad);
    SwallowedConcat(pad, MembersText(members));
    Braced(depth, buf, pad + MembersText(members));
  }

  lemma Braced(depth: int, buf: string, body: string)
    requires Swallowed(body) && depth >= 0 && (depth == 0 ==> buf == "")
    ensures depth > 0 ==> SwallowedAt(depth, buf, "{" + body + "}")
    ensures depth == 0 ==> After(START, "{" + body + "}") == START
    ensures depth == 0 ==> Flushed(START, "{" + body + "}") == ["{" + body + "}"]
  {
    Opened(depth, buf, body);
    Closed(depth, buf + "{" + body);
    Bracket(Inside(depth, buf), "{" + body, Inside(depth + 1, buf + "{" + body), "}");
    BraceText(buf, body);
  }

  /** Whatever is flushed by the end was flushed by its second part. */
  lemma Bracket(s: State, a: string, t: State, b: string)
    requires Silent(s, a, t)
    ensures After(s, a + b) == After(t, b) && Flushed(s, a + b) == Flushed(t, b)
  {
    RunAppend(s, a, b);
  }

  lemma BraceText(buf: string, body: string)
    ensures buf + "{" + body + "}" == buf + ("{" + body + "}")
    ensures buf == "" ==> buf + ("{" + body + "}") == "{" + body + "}"
  {
  }

  lemma Closed(depth: int, outer: string)
    requires depth >= 0 && outer != ""
    ensures After(Inside(depth + 1, outer), "}") == if depth == 0 then START else Inside(depth, outer + "}")
    ensures Flushed(Inside(depth + 1, outer), "}") == if depth == 0 then [outer + "}"] else []
  {
    RunOne(Inside(depth + 1, outer), '}');
  }

  lemma Opened(depth: int, buf: string, body: string)
    requires Swallowed(body) && depth >= 0
    ensures After(Inside(depth, buf), "{" + body) == Inside(depth + 1, buf + "{" + body)
    ensures Flushed(Inside(depth, buf), "{" + body) == []
  {
    assert SwallowedAt(depth + 1, buf + "{", body);
    SilentOne(Inside(depth, buf), '{');
    SilentConcat(Inside(depth, buf), "{", Inside(depth + 1, buf + "{"), body, Inside(depth + 1, buf + "{" + body));
  }

  // ----- a document of objects in plain text

  /** Each object with the plain text in front of it. */
  datatype Part = Part(gap: string, pad: string, members: Members)

  predicate WellFormedPart(p: Part) {
    IsInert(p.gap) && IsPad(p.pad) && WellFormedMembers(p.members)
  }

  function ObjectText(p: Part): string {
    Text(Obj(p.pad, p.members))
  }

  function DocumentText(parts: seq<Part>, tail: string): string {
    if parts == [] then tail
    else parts[0].gap + ObjectText(parts[0]) + DocumentText(parts[1..], tail)
  }

  function Objects(parts: seq<Part>): seq<string> {
    if parts == [] then [] else [ObjectText(parts[0])] + Objects(parts[1..])
  }

  function NonEmptyObjects(parts: seq<Part>): seq<string> {
    if parts == [] then []
    else (if parts[0].members.Member? then [ObjectText(parts[0])] else []) + NonEmptyObjects(parts[1..])
  }

  lemma {:induction false} GapIgnored(gap: string)
    requires IsInert(gap)
    ensures After(START, gap) == START && Flushed(START, gap) == []
  {
    if gap != "" {
      assert Next(START, gap[0]) == START;
      GapIgnored(gap[1..]);
    }
  }

  lemma {:induction false} DocumentRun(parts: seq<Part>, tail: string)
    requires IsInert(tail) && forall p :: p in parts ==> WellFormedPart(p)
    ensures Flushed(START, DocumentText(parts, tail)) == Objects(parts)
  {
    if parts == [] {
      GapIgnored(tail);
    } else {
      var p, rest := parts[0], DocumentText(parts[1..], tail);
      assert WellFormedPart(p);
      PartRun(p);
      RunAppend(START, p.gap + ObjectText(p), rest);
      DocumentRun(parts[1..], tail);
    }
  }

  lemma PartRun(p: Part)
    requires WellFormedPart(p)
    ensures After(START, p.gap + ObjectText(p)) == START
    ensures Flushed(START, p.gap + ObjectText(p)) == [ObjectText(p)]
  {
    GapIgnored(p.gap);
    ObjectRun(0, "", p.pad, p.members);
    RunAppend(START, p.gap, ObjectText(p));
  }

  lemma StripKeepsObject(body: string)
    ensures Strip("{" + body + "}") == "{" + body + "}"
  {
    var raw := "{" + body + "}";
    assert raw[|raw| - 1] == '}';
  }

  /** Once stripped of its brace and white space, only a non-empty object starts with a quote. */
  lemma LooksNonEmpty(p: Part)
    requires WellFormedPart(p)
    ensures Strip(ObjectText(p)) == ObjectText(p)
    ensures LooksLikeObject(ObjectText(p)) <==> p.members.Member?
  {
    var inner := MembersText(p.members);
    StripKeepsObject(p.pad + inner);
    assert ObjectText(p)[1..] == p.pad + (inner + "}");
    if p.members.NoMembers? {
      assert inner + "}" == "}";
      StripLeftPadding(p.pad, "}");
    } else {
      QuotedFirst(p.pad, p.members);
    }
  }

  lemma QuotedFirst(pad: string, m: Members)
    requires m.Member? && IsPad(pad) && WellFormedMembers(m)
    ensures var inner := StripLeft(pad + (MembersText(m) + "}")); inner != "" && inner[0] == '"'
  {
    var text := MembersText(m) + "}";
    MembersHead(m);
    var quoted := text[|m.before|..];
    assert text == m.before + quoted;
    assert pad + text == (pad + m.before) + quoted;
    StripLeftPadding(pad + m.before, quoted);
  }

  lemma MembersHead(m: Members)
    requires m.Member?
    ensures var text := MembersText(m) + "}";
      |text| > |m.before| && text[..|m.before|] == m.before && text[|m.before|] == '"'
  {
    assert StrText(m.key)[0] == '"';
  }

  lemma {:induction false} DocumentCandidates(parts: seq<Part>)
    requires forall p :: p in parts ==> WellFormedPart(p)
    ensures Candidates(Objects(parts)) == NonEmptyObjects(parts)
  {
    if parts != [] {
      assert WellFormedPart(parts[0]);
      LooksNonEmpty(parts[0]);
      DocumentCandidates(parts[1..]);
      assert Objects(parts)[1..] == Objects(parts[1..]);
    }
  }

  /** What reaches the parser is exactly the non-empty objects, in order and whole. */
  lemma ExtractsExactlyTheObjects(parts: seq<Part>, tail: string)
    requires IsInert(tail) && forall p :: p in parts ==> WellFormedPart(p)
    ensures Candidates(Flushed(START, DocumentText(parts, tail))) == NonEmptyObjects(parts)
  {
    DocumentRun(parts, tail);
    DocumentCandidates(parts);
  }

  // ----- arbitrary text

  /** So a document's objects come back one for one, each as the parser reads it, if it reads them all. */
  lemma DocumentObjects<T>(parts: seq<Part>, tail: string, loads: string -> Option<T>, objects: seq<T>)
    requires IsInert(tail) && forall p :: p in parts ==> WellFormedPart(p)
    requires IsSelection(Candidates(Flushed(START, DocumentText(parts, tail))), loads, objects)
    requires forall raw :: raw in NonEmptyObjects(parts) ==> loads(raw).Some?
    ensures |objects| == |NonEmptyObjects(parts)|
    ensures forall i :: 0 <= i < |objects| ==> loads(NonEmptyObjects(parts)[i]) == Some(objects[i])
  {
    ExtractsExactlyTheObjects(parts, tail);
    AllSelected(NonEmptyObjects(parts), loads, objects);
  }

  /** Each raw is a piece of text from a '{' to a '}'; the pieces follow one another, from `from` on. */
  ghost predicate InOrder(text: string, from: nat, raws: seq<string>)
    decreases raws
  {
    raws == [] || exists a, b :: from <= a < b <= |text| && IsPiece(text, a, b, raws[0]) && InOrder(text, b, raws[1..])
  }

  ghost predicate IsPiece(text: string, a: nat, b: nat, raw: string)
    requires a < b <= |text|
  {
    text[a..b] == raw && text[a] == '{' && text[b - 1] == '}'
  }

  /**
   * At position i the buffer is empty, or holds the text since an opening brace, or is debris left by a
   * backslash in a quoted stretch outside any object, which never becomes a candidate.
   */
  ghost predicate BufferFits(text: string, start: nat, i: nat, s: State)
    requires start <= i <= |text|
  {
    || (s.buf == "" && s.depth <= 0 && !s.escapeNext)
    || (s.depth > 0 && start < i && s.buf == text[start..i] && text[start] == '{')
    || (s.depth <= 0 && s.buf != "" && s.buf[0] == '\\' && (s.depth == 0 ==> s.inString))
  }

  lemma {:induction false} OnlyPieces(text: string, start: nat, i: nat, s: State)
    requires start <= i <= |text| && BufferFits(text, start, i, s)
    ensures InOrder(text, start, Candidates(Flushed(s, text[i..])))
    decreases |text| - i
  {
    if i < |text| {
      var ch := text[i];
      var s1 := Next(s, ch);
      assert text[i..][0] == ch && text[i..][1..] == text[i + 1..];
      if Flushes(s, ch) {
        FlushedPiece(text, start, i, s);
        OnlyPieces(text, i + 1, i + 1, s1);
        FlushedFirst(text, start, i, s);
      } else {
        var start1 := if s.buf == "" then i else start;
        assert Flushed(s, text[i..]) == Flushed(s1, text[i + 1..]);
        BufferGrows(text, start, i, s);
        OnlyPieces(text, start1, i + 1, s1);
        InOrderFrom(text, start, start1, Candidates(Flushed(s1, text[i + 1..])));
      }
    }
  }

  lemma BufferGrows(text: string, start: nat, i: nat, s: State)
    requires start <= i < |text| && BufferFits(text, start, i, s) && !Flushes(s, text[i])
    ensures BufferFits(text, if s.buf == "" then i else start, i + 1, Next(s, text[i]))
  {
    assert text[start..i] + [text[i]] == text[start..i + 1];
    assert text[i..i + 1] == [text[i]];
  }

  lemma FlushedPiece(text: string, start: nat, i: nat, s: State)
    requires start <= i < |text| && BufferFits(text, start, i, s) && Flushes(s, text[i])
    ensures var raw := Strip(Advance(s, text[i]).buf);
      LooksLikeObject(raw) ==> IsPiece(text, start, i + 1, raw)
  {
    var buf := Advance(s, text[i]).buf;
    if s.depth > 0 {
      assert buf == text[start..i] + [text[i]] == text[start..i + 1];
      StripKeepsObject(text[start + 1..i]);
      assert buf == "{" + text[start + 1..i] + "}";
    } else {
      StripRightKeepsHead(buf);
    }
  }

  lemma InOrderFrom(text: string, from: nat, later: nat, raws: seq<string>)
    requires from <= later && InOrder(text, later, raws)
    ensures InOrder(text, from, raws)
  {
    if raws != [] {
      var a, b :| later <= a < b <= |text| && IsPiece(text, a, b, raws[0]) && InOrder(text, b, raws[1..]);
    }
  }

  lemma FlushedFirst(text: string, start: nat, i: nat, s: State)
    requires start <= i < |text| && Flushes(s, text[i])
    requires var raw := Strip(Advance(s, text[i]).buf); LooksLikeObject(raw) ==> IsPiece(text, start, i + 1, raw)
    requires InOrder(text, i + 1, Candidates(Flushed(Next(s, text[i]), text[i + 1..])))
    ensures InOrder(text, start, Candidates(Flushed(s, text[i..])))
  {
    var raw, rest := Strip(Advance(s, text[i]).buf), Flushed(Next(s, text[i]), text[i + 1..]);
    assert text[i..][1..] == text[i + 1..];
    var all := Flushed(s, text[i..]);
    assert all[1..] == rest;
    if LooksLikeObject(raw) {
      assert Candidates(all)[0] == raw && Candidates(all)[1..] == Candidates(rest);
    } else {
      assert Candidates(all) == Candidates(rest);
      InOrderFrom(text, start, i + 1, Candidates(rest));
    }
  }

  /** Whatever the text, everything handed to the parser is a piece of it, in order, without overlap. */
  lemma ParsesOnlyPieces(text: string)
    ensures InOrder(text, 0, Candidates(Flushed(START, text)))
  {
    OnlyPieces(text, 0, 0, START);
    assert text[0..] == text;
  }
}
