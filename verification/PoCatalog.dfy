/** The catalog parser of tools/check-catalogs.py, and what it gives back for a catalog written in any of the
    ways the gettext tools write one. A file is the list of its lines; cutting it into lines is not modelled. */
module PoCatalog {
  import opened Wrappers
  import opened Raising
  import opened Text

  /** The exceptions the parser ends in. */
  datatype Error = ValueError | IndexError

  // ---- Strings ----

  predicate StartsWith(s: string, prefix: string) {
    prefix <= s
  }

  function FirstQuote(s: string): (i: nat)
    ensures i <= |s| && forall k :: 0 <= k < i ==> s[k] != '"'
    ensures i < |s| ==> s[i] == '"'
  {
    if s == [] || s[0] == '"' then 0 else 1 + FirstQuote(s[1..])
  }

  /** One past the last quote, or 0 when there is none. */
  function AfterLastQuote(s: string): (i: nat)
    ensures i <= |s| && forall k :: i <= k < |s| ==> s[k] != '"'
    ensures i > 0 ==> s[i - 1] == '"'
  {
    if s == [] then 0 else if s[|s| - 1] == '"' then |s| else AfterLastQuote(s[..|s| - 1])
  }

  // ---- Escapes ----

  /** The character an escape stands for; a letter outside the table stands for itself. */
  function Unescape(c: char): char {
    match c
    case 'n' => '\n'
    case 't' => '\t'
    case 'r' => '\r'
    case 'a' => '\U{07}'
    case 'b' => '\U{08}'
    case 'f' => '\U{0C}'
    case 'v' => '\U{0B}'
    case '0' => '\U{00}'
    case _ => c
  }

  function Decode(body: string): Result<string, Error> {
    if body == [] then Ok([])
    else if body[0] != '\\' then
      var rest :- Decode(body[1..]);
      Ok([body[0]] + rest)
    else if |body| == 1 then Err(IndexError)
    else
      var rest :- Decode(body[2..]);
      Ok([Unescape(body[1])] + rest)
  }

  /** The value of a run whose first part has been decoded to `out`. */
  function Prepend(out: string, r: Result<string, Error>): Result<string, Error> {
    match r
    case Ok(rest) => Ok(out + rest)
    case Err(e) => Err(e)
  }

  function Unquoted(line: string): Result<string, Error> {
    var start := FirstQuote(line);
    var end := AfterLastQuote(line);
    if start == |line| || end - 1 <= start then Err(ValueError)
    else Decode(line[start + 1..end - 1])
  }

  lemma DecodeStep(body: string, width: nat)
    requires body != [] && width == (if body[0] == '\\' then 2 else 1) && width <= |body|
    ensures Decode(body) ==
              Prepend([if width == 2 then Unescape(body[1]) else body[0]], Decode(body[width..]))
  {
  }

  lemma PrependNothing(r: Result<string, Error>)
    ensures Prepend([], r) == r
  {
    if r.Ok? {
      assert [] + r.value == r.value;
    }
  }

  lemma PrependTwice(a: string, b: string, r: Result<string, Error>)
    ensures Prepend(a, Prepend(b, r)) == Prepend(a + b, r)
  {
    if r.Ok? {
      assert a + (b + r.value) == (a + b) + r.value;
    }
  }

  /** The loop `unquote` runs over the quoted run. */
  method Unquote(line: string) returns (r: Result<string, Error>)
    ensures r == Unquoted(line)
  {
    var start := FirstQuote(line);
    if start == |line| {
      return Err(ValueError);
    }
    var end := AfterLastQuote(line) - 1;
    if end <= start {
      return Err(ValueError);
    }
    var body := line[start + 1..end];
    var out: string := [];
    var i := 0;
    assert body[0..] == body;
    PrependNothing(Decode(body));
    while i < |body|
      invariant 0 <= i <= |body|
      invariant Decode(body) == Prepend(out, Decode(body[i..]))
    {
      ghost var before, start := out, i;
      var c := body[i];
      if c == '\\' {
        i := i + 1;
        if i == |body| {
          return Err(IndexError);
        }
        out := out + [Unescape(body[i])];
      } else {
        out := out + [c];
      }
      i := i + 1;
      DecodeStep(body[start..], i - start);
      assert body[start..][i - start..] == body[i..];
      PrependTwice(before, out[|before|..], Decode(body[i..]));
    }
    assert out + [] == out;
    return Ok(out);
  }

  /** The way msgmerge writes a character: those of the table escaped. */
  function EscapeChar(c: char): string {
    match c
    case '\n' => "\\n"
    case '\t' => "\\t"
    case '\r' => "\\r"
    case '"' => "\\\""
    case '\\' => "\\\\"
    case '\U{07}' => "\\a"
    case '\U{08}' => "\\b"
    case '\U{0C}' => "\\f"
    case '\U{0B}' => "\\v"
    case '\U{00}' => "\\0"
    case _ => [c]
  }

  function Escape(s: string): string {
    if s == [] then [] else EscapeChar(s[0]) + Escape(s[1..])
  }

  lemma DecodeEscapedChar(c: char, rest: string)
    ensures Decode(EscapeChar(c) + rest) == Prepend([c], Decode(rest))
    ensures forall x <- EscapeChar(c) :: x !in {'\n', '\r', '\U{0B}', '\U{0C}'}
  {
    var body := EscapeChar(c) + rest;
    if |EscapeChar(c)| == 1 {
      assert body[1..] == rest;
    } else {
      assert body[2..] == rest;
    }
  }

  /** Unquoting inverts escaping, and an escaped string has no line break of its own to be cut at. */
  lemma {:induction false} DecodeEscape(s: string)
    ensures Decode(Escape(s)) == Ok(s)
    ensures forall c <- Escape(s) :: c !in {'\n', '\r', '\U{0B}', '\U{0C}'}
  {
    if s != [] {
      DecodeEscape(s[1..]);
      DecodeEscapedChar(s[0], Escape(s[1..]));
      assert s == [s[0]] + s[1..];
    }
  }

  /** A line that is a prefix without quotes followed by a quoted body unquotes to the body's value. */
  lemma UnquotedLine(prefix: string, body: string)
    requires '"' !in prefix
    ensures Unquoted(prefix + "\"" + body + "\"") == Decode(body)
  {
    var line := prefix + "\"" + body + "\"";
    assert line[|prefix|] == '"' && line[|line| - 1] == '"';
    forall k | 0 <= k < |prefix|
      ensures line[k] != '"'
    {
      assert line[k] == prefix[k];
    }
    assert AfterLastQuote(line) == |line|;
    assert line[|prefix| + 1..|line| - 1] == body;
  }

  // ---- The parser ----

  datatype Field = MsgCtxt | MsgIdPlural | MsgId | MsgStr

  /** A catalog entry as the parser reports it: its key and its comment lines. */
  datatype Entry = Entry(context: Option<string>, id: string, plural: Option<string>, comments: seq<string>)

  datatype Parser = Parser(
    entries: seq<Entry>, current: map<Field, string>, comments: seq<string>, field: Option<Field>)

  const START := Parser([], map[], [], None)

  function Keyword(f: Field): string {
    match f
    case MsgCtxt => "msgctxt"
    case MsgIdPlural => "msgid_plural"
    case MsgId => "msgid"
    case MsgStr => "msgstr"
  }

  function Get(current: map<Field, string>, f: Field): Option<string> {
    if f in current then Some(current[f]) else None
  }

  function Held(current: map<Field, string>, f: Field): string {
    if f in current then current[f] else ""
  }

  /** The entry under construction, unless there is none or it is the header. */
  function Finished(p: Parser): seq<Entry> {
    if MsgId !in p.current || (p.current[MsgId] == "" && MsgCtxt !in p.current) then []
    else [Entry(Get(p.current, MsgCtxt), p.current[MsgId], Get(p.current, MsgIdPlural), p.comments)]
  }

  function Flush(p: Parser): Parser {
    Parser(p.entries + Finished(p), map[], [], None)
  }

  /** The field a line opens, tried in the parser's order. */
  function Opens(line: string): Option<Field> {
    if StartsWith(line, "msgctxt ") then Some(MsgCtxt)
    else if StartsWith(line, "msgid_plural ") then Some(MsgIdPlural)
    else if StartsWith(line, "msgid ") then Some(MsgId)
    else if StartsWith(line, "msgstr ") then Some(MsgStr)
    else None
  }

  function Feed(p: Parser, raw: string): Result<Parser, Error> {
    var line := Strip(raw);
    if line == "" then Ok(Flush(p))
    else if StartsWith(line, "#~") then Ok(p)
    else if StartsWith(line, "#") then Ok(p.(comments := p.comments + [line]))
    else if Opens(line).Some? then
      var f := Opens(line).value;
      var text :- Unquoted(line);
      Ok(p.(current := p.current[f := text], field := Some(f)))
    else if StartsWith(line, "msgstr[") then
      var text :- Unquoted(line);
      Ok(p.(current := p.current[MsgStr := Held(p.current, MsgStr) + text], field := Some(MsgStr)))
    else if StartsWith(line, "\"") then
      if p.field.None? then Err(ValueError)
      else
        var f := p.field.value;
        var text :- Unquoted(line);
        Ok(p.(current := p.current[f := Held(p.current, f) + text]))
    else Err(ValueError)
  }

  function FeedAll(p: Parser, lines: seq<string>): Result<Parser, Error>
    decreases |lines|
  {
    if lines == [] then Ok(p)
    else
      var q :- Feed(p, lines[0]);
      FeedAll(q, lines[1..])
  }

  function Parsed(lines: seq<string>): Result<seq<Entry>, Error> {
    var p :- FeedAll(START, lines);
    Ok(Flush(p).entries)
  }

  /** `parse_po`: one pass over the lines, with the state its closure shares. */
  method ParsePo(lines: seq<string>) returns (r: Result<seq<Entry>, Error>)
    ensures r == Parsed(lines)
  {
    var entries: seq<Entry> := [];
    var current: map<Field, string> := map[];
    var comments: seq<string> := [];
    var field: Option<Field> := None;
    var i := 0;
    while i < |lines|
      invariant 0 <= i <= |lines|
      invariant FeedAll(START, lines) == FeedAll(Parser(entries, current, comments, field), lines[i..])
    {
      var line := Strip(lines[i]);
      i := i + 1;
      assert lines[i - 1..][1..] == lines[i..];
      if line == "" {
        var flushed := Flush(Parser(entries, current, comments, field));
        entries, current, comments, field := flushed.entries, map[], [], None;
        continue;
      }
      if StartsWith(line, "#~") {
        continue;
      }
      if StartsWith(line, "#") {
        comments := comments + [line];
        continue;
      }
      var found := Opens(line);
      if found.Some? {
        field := found;
        var text := Unquote(line);
        if text.Err? {
          return Err(text.error);
        }
        current := current[found.value := text.value];
      } else if StartsWith(line, "msgstr[") {
        field := Some(MsgStr);
        var text := Unquote(line);
        if text.Err? {
          return Err(text.error);
        }
        current := current[MsgStr := Held(current, MsgStr) + text.value];
      } else if StartsWith(line, "\"") {
        if field.None? {
          return Err(ValueError);
        }
        var text := Unquote(line);
        if text.Err? {
          return Err(text.error);
        }
        current := current[field.value := Held(current, field.value) + text.value];
      } else {
        return Err(ValueError);
      }
    }
    return Ok(Flush(Parser(entries, current, comments, field)).entries);
  }

  // ---- Source references ----

  /** Python's `str.split()`: the maximal runs without white space. `word` is the run being read. */
  function Tokens(s: string, word: string): seq<string> {
    if s == [] then (if word == [] then [] else [word])
    else if IsSpace(s[0]) then (if word == [] then [] else [word]) + Tokens(s[1..], [])
    else Tokens(s[1..], word + [s[0]])
  }

  /** The references of one comment line: none unless it is a `#:` line. */
  function LineRefs(comment: string): set<string> {
    if StartsWith(comment, "#:") then set t <- Tokens(comment[2..], []) else {}
  }

  function Refs(comments: seq<string>): set<string> {
    if comments == [] then {} else LineRefs(comments[0]) + Refs(comments[1..])
  }

  /** `refs_of` accumulates the set over the comment lines. */
  method RefsOf(entry: Entry) returns (refs: set<string>)
    ensures refs == Refs(entry.comments)
  {
    refs := {};
    for i := 0 to |entry.comments|
      invariant refs + Refs(entry.comments[i..]) == Refs(entry.comments)
    {
      if StartsWith(entry.comments[i], "#:") {
        refs := refs + set t <- Tokens(entry.comments[i][2..], []);
      }
      assert entry.comments[i..][1..] == entry.comments[i + 1..];
    }
  }
}
