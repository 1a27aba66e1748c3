/** What the catalog parser gives back: parsing composes over blank lines, ignores obsolete lines and padding,
    and recovers every entry of a catalog however its strings are quoted and wrapped. */
module PoRoundTrip {
  import opened Wrappers
  import opened Raising
  import opened Decimal
  import opened Text
  import opened PoCatalog

  // ---- The parser as a fold ----

  function Then(r: Result<Parser, Error>, lines: seq<string>): Result<Parser, Error> {
    match r
    case Ok(p) => FeedAll(p, lines)
    case Err(e) => Err(e)
  }

  lemma {:induction false} FeedAllSplit(p: Parser, a: seq<string>, b: seq<string>)
    ensures FeedAll(p, a + b) == Then(FeedAll(p, a), b)
    decreases |a|
  {
    if a == [] {
      assert a + b == b;
    } else {
      assert (a + b)[1..] == a[1..] + b;
      match Feed(p, a[0])
      case Ok(q) => FeedAllSplit(q, a[1..], b);
      case Err(_) =>
    }
  }

  /** The same parser state with entries already collected in front. */
  function After(pre: seq<Entry>, r: Result<Parser, Error>): Result<Parser, Error> {
    match r
    case Ok(p) => Ok(p.(entries := pre + p.entries))
    case Err(e) => Err(e)
  }

  lemma FeedAfter(pre: seq<Entry>, p: Parser, line: string)
    ensures Feed(p.(entries := pre + p.entries), line) == After(pre, Feed(p, line))
  {
    assert pre + p.entries + Finished(p) == pre + (p.entries + Finished(p));
  }

  lemma {:induction false} FeedAllAfter(pre: seq<Entry>, p: Parser, lines: seq<string>)
    ensures FeedAll(p.(entries := pre + p.entries), lines) == After(pre, FeedAll(p, lines))
    decreases |lines|
  {
    if lines != [] {
      FeedAfter(pre, p, lines[0]);
      match Feed(p, lines[0])
      case Ok(q) => FeedAllAfter(pre, q, lines[1..]);
      case Err(_) =>
    }
  }

  /** The entries of one file followed by those of another, or the first error. */
  function Both(a: Result<seq<Entry>, Error>, b: Result<seq<Entry>, Error>): Result<seq<Entry>, Error> {
    match a
    case Err(e) => Err(e)
    case Ok(x) => match b case Err(e) => Err(e) case Ok(y) => Ok(x + y)
  }

  /** A blank line ends an entry for good: a file is parsed paragraph by paragraph. */
  lemma ParagraphsAreIndependent(a: seq<string>, blank: string, b: seq<string>)
    requires Blank(blank)
    ensures Parsed(a + [blank] + b) == Both(Parsed(a), Parsed(b))
  {
    StripBlank(blank);
    FeedAllSplit(START, a + [blank], b);
    FeedAllSplit(START, a, [blank]);
    match FeedAll(START, a)
    case Err(_) =>
    case Ok(q) =>
      assert FeedAll(q, [blank]) == Ok(Flush(q));
      assert Flush(q) == START.(entries := Flush(q).entries + []);
      FeedAllAfter(Flush(q).entries, START, b);
      match FeedAll(START, b)
      case Err(_) =>
      case Ok(z) => assert Flush(q).entries + z.entries + Finished(z) == Flush(q).entries + (z.entries + Finished(z));
  }

  // ---- Obsolete lines and padding ----

  predicate Obsolete(line: string) {
    StartsWith(Strip(line), "#~")
  }

  function WithoutObsolete(lines: seq<string>): seq<string> {
    if lines == [] then []
    else (if Obsolete(lines[0]) then [] else [lines[0]]) + WithoutObsolete(lines[1..])
  }

  /** Retired entries are invisible wherever they stand, in any file, valid or not. */
  lemma {:induction false} ObsoleteIgnored(p: Parser, lines: seq<string>)
    ensures FeedAll(p, WithoutObsolete(lines)) == FeedAll(p, lines)
    decreases |lines|
  {
    if lines != [] {
      var rest := WithoutObsolete(lines[1..]);
      if Obsolete(lines[0]) {
        assert WithoutObsolete(lines) == rest;
        ObsoleteIgnored(p, lines[1..]);
      } else {
        assert WithoutObsolete(lines)[1..] == rest;
        match Feed(p, lines[0])
        case Ok(q) => ObsoleteIgnored(q, lines[1..]);
        case Err(_) =>
      }
    }
  }

  function StripAll(lines: seq<string>): (r: seq<string>)
    ensures |r| == |lines|
  {
    seq(|lines|, i requires 0 <= i < |lines| => Strip(lines[i]))
  }

  lemma {:induction false} PaddingIgnored(p: Parser, lines: seq<string>)
    ensures FeedAll(p, StripAll(lines)) == FeedAll(p, lines)
    decreases |lines|
  {
    if lines != [] {
      StripTwice(lines[0]);
      assert StripAll(lines)[1..] == StripAll(lines[1..]);
      match Feed(p, lines[0])
      case Ok(q) => PaddingIgnored(q, lines[1..]);
      case Err(_) =>
    }
  }

  // ---- A catalog, as written ----

  /** A string as written: the quoted runs it is wrapped over, in order, each still escaped. */
  type Wrapped = seq<string>

  /** One paragraph of a catalog. `translations` has one text per plural form; `gap` counts the blank lines
      after it beyond the one that ends it. */
  datatype Block = Block(
    comments: seq<string>, context: Option<Wrapped>, id: Wrapped, plural: Option<Wrapped>,
    translations: seq<Wrapped>, gap: nat)

  ghost predicate ValidText(t: Wrapped) {
    t != [] && forall body <- t :: Decode(body).Ok?
  }

  ghost predicate ValidBlock(b: Block) {
    && (forall c <- b.comments :: Strip(c) == c && StartsWith(c, "#") && !StartsWith(c, "#~"))
    && (b.context.Some? ==> ValidText(b.context.value))
    && ValidText(b.id)
    && (b.plural.Some? ==> ValidText(b.plural.value))
    && (forall t <- b.translations :: ValidText(t))
  }

  /** The string a text stands for. */
  function Value(t: Wrapped): string {
    if t == [] then ""
    else (match Decode(t[0]) case Ok(s) => s case Err(_) => "") + Value(t[1..])
  }

  function OptValue(t: Option<Wrapped>): Option<string> {
    if t.Some? then Some(Value(t.value)) else None
  }

  function Quoted(prefix: string, body: string): string {
    prefix + "\"" + body + "\""
  }

  function Continued(t: Wrapped): seq<string> {
    if t == [] then [] else [Quoted("", t[0])] + Continued(t[1..])
  }

  function FieldLines(prefix: string, t: Wrapped): seq<string> {
    if t == [] then [] else [Quoted(prefix, t[0])] + Continued(t[1..])
  }

  function OptLines(f: Field, t: Option<Wrapped>): seq<string> {
    if t.Some? then FieldLines(Keyword(f) + " ", t.value) else []
  }

  /** The plural forms, numbered from `n` on. */
  function PluralLines(ts: seq<Wrapped>, n: nat): seq<string> {
    if ts == [] then [] else FieldLines("msgstr[" + Numeral(n) + "] ", ts[0]) + PluralLines(ts[1..], n + 1)
  }

  function TranslationLines(b: Block): seq<string> {
    if b.plural.None? && |b.translations| == 1 then FieldLines("msgstr ", b.translations[0])
    else PluralLines(b.translations, 0)
  }

  function KeyLines(b: Block): seq<string> {
    b.comments + OptLines(MsgCtxt, b.context) + FieldLines("msgid ", b.id) + OptLines(MsgIdPlural, b.plural)
  }

  function BlockLines(b: Block): seq<string> {
    KeyLines(b) + TranslationLines(b)
  }

  function BlankLines(n: nat): seq<string> {
    seq(n, _ => "")
  }

  function CatalogLines(blocks: seq<Block>): seq<string> {
    if blocks == [] then []
    else if |blocks| == 1 then BlockLines(blocks[0]) + BlankLines(blocks[0].gap)
    else BlockLines(blocks[0]) + [""] + BlankLines(blocks[0].gap) + CatalogLines(blocks[1..])
  }

  /** What a block declares: one entry, or nothing when it is the header. */
  function EntryOf(b: Block): seq<Entry> {
    if Value(b.id) == "" && b.context.None? then []
    else [Entry(OptValue(b.context), Value(b.id), OptValue(b.plural), b.comments)]
  }

  function EntriesOf(blocks: seq<Block>): seq<Entry> {
    if blocks == [] then [] else EntryOf(blocks[0]) + EntriesOf(blocks[1..])
  }

  // ---- One field ----

  /** A printed line is left alone by stripping: it starts with the prefix and ends with a quote. */
  lemma QuotedLine(prefix: string, body: string)
    requires '"' !in prefix && (prefix != [] ==> !IsSpace(prefix[0]))
    ensures Strip(Quoted(prefix, body)) == Quoted(prefix, body)
    ensures Unquoted(Quoted(prefix, body)) == Decode(body)
    ensures prefix != [] ==> Quoted(prefix, body)[0] == prefix[0]
    ensures prefix == [] ==> Quoted(prefix, body)[0] == '"'
  {
    var line := Quoted(prefix, body);
    assert line[|line| - 1] == '"';
    Unpadded(line);
    UnquotedLine(prefix, body);
  }

  /** Neither blank nor a comment. */
  predicate PlainLine(line: string) {
    line != "" && !StartsWith(line, "#~") && !StartsWith(line, "#")
  }

  /** The text joins the translation, and the translation is the field now open. */
  function AddTranslation(p: Parser, text: string): Parser {
    p.(current := p.current[MsgStr := Held(p.current, MsgStr) + text], field := Some(MsgStr))
  }

  lemma FeedPlain(p: Parser, line: string, text: string)
    requires Strip(line) == line && PlainLine(line) && Unquoted(line) == Ok(text)
    ensures Opens(line).Some? ==>
              Feed(p, line) == Ok(p.(current := p.current[Opens(line).value := text], field := Opens(line)))
    ensures Opens(line).None? && StartsWith(line, "msgstr[") ==>
              Feed(p, line) == Ok(AddTranslation(p, text))
  {
  }

  /** A line that opens a field is read as opening that field and nothing else. */
  lemma OpensKeyword(f: Field, rest: string)
    ensures Opens(Keyword(f) + " " + rest) == Some(f)
    ensures PlainLine(Keyword(f) + " " + rest)
  {
    var line := Keyword(f) + " " + rest;
    assert line[..|Keyword(f)| + 1] == Keyword(f) + " ";
    assert line[0] == 'm';
    match f
    case MsgCtxt =>
    case MsgIdPlural => assert line[3] == 'i';
    case MsgId => assert line[3] == 'i' && line[5] == ' ';
    case MsgStr => assert line[3] == 's';
  }

  lemma OpensPlural(line: string)
    requires |line| > 7 && line[..7] == "msgstr["
    ensures Opens(line).None? && StartsWith(line, "msgstr[")
    ensures PlainLine(line)
  {
    assert line[0] == 'm' && line[3] == 's' && line[6] == '[';
  }

  lemma OpensNothing(rest: string)
    ensures Opens("\"" + rest).None? && StartsWith("\"" + rest, "\"")
    ensures PlainLine("\"" + rest) && !StartsWith("\"" + rest, "msgstr[")
  {
    var line := "\"" + rest;
    assert line[0] == '"';
    assert line[..1] == "\"";
  }

  lemma QuotedSplit(prefix: string, body: string)
    ensures Quoted(prefix, body) == prefix + Quoted("", body)
  {
  }

  lemma FeedQuoted(p: Parser, prefix: string, body: string)
    requires '"' !in prefix && prefix != [] && !IsSpace(prefix[0]) && Decode(body).Ok?
    requires PlainLine(Quoted(prefix, body))
    ensures var line := Quoted(prefix, body);
            var text := Decode(body).value;
            && (Opens(line).Some? ==>
                  Feed(p, line) == Ok(p.(current := p.current[Opens(line).value := text], field := Opens(line))))
            && (Opens(line).None? && StartsWith(line, "msgstr[") ==>
                  Feed(p, line) == Ok(AddTranslation(p, text)))
  {
    QuotedLine(prefix, body);
    FeedPlain(p, Quoted(prefix, body), Decode(body).value);
  }

  /** The first line of a field sets it. */
  lemma FeedField(p: Parser, f: Field, body: string)
    requires Decode(body).Ok?
    ensures Feed(p, Quoted(Keyword(f) + " ", body)) ==
              Ok(p.(current := p.current[f := Decode(body).value], field := Some(f)))
  {
    var prefix := Keyword(f) + " ";
    QuotedSplit(prefix, body);
    OpensKeyword(f, Quoted("", body));
    FeedQuoted(p, prefix, body);
  }

  /** The line of one plural form opens no field by name. */
  lemma PluralPrefix(number: string, body: string)
    ensures var line := Quoted("msgstr[" + number + "] ", body); |line| > 7 && line[..7] == "msgstr["
  {
    var prefix := "msgstr[" + number + "] ";
    assert prefix[..7] == "msgstr[";
    assert Quoted(prefix, body)[..7] == prefix[..7];
  }

  /** The first line of a plural form adds to the translation. */
  lemma FeedPlural(p: Parser, n: nat, body: string)
    requires Decode(body).Ok?
    ensures Feed(p, Quoted("msgstr[" + Numeral(n) + "] ", body)) ==
              Ok(AddTranslation(p, Decode(body).value))
  {
    PluralPrefix(Numeral(n), body);
    var prefix := "msgstr[" + Numeral(n) + "] ";
    OpensPlural(Quoted(prefix, body));
    assert prefix[0] == 'm';
    FeedQuoted(p, prefix, body);
  }

  lemma FeedContinued(p: Parser, body: string)
    requires Decode(body).Ok? && p.field.Some?
    ensures Feed(p, Quoted("", body)) ==
              Ok(p.(current := p.current[p.field.value := Held(p.current, p.field.value) + Decode(body).value]))
  {
    var line := Quoted("", body);
    QuotedLine("", body);
    assert line == "\"" + (body + "\"");
    OpensNothing(body + "\"");
  }

  lemma Overwritten(m: map<Field, string>, f: Field, a: string, b: string)
    ensures m[f := a][f := b] == m[f := b]
  {
  }

  lemma ValueSplit(held: string, t: Wrapped)
    requires t != [] && Decode(t[0]).Ok?
    ensures held + Decode(t[0]).value + Value(t[1..]) == held + Value(t)
  {
    var first, rest := Decode(t[0]).value, Value(t[1..]);
    assert Value(t) == first + rest;
    assert held + first + rest == held + (first + rest);
  }

  /** The lines a string is continued over add to the field that is open. */
  lemma {:induction false} FeedContinuations(p: Parser, t: Wrapped)
    requires p.field.Some? && p.field.value in p.current
    requires forall body <- t :: Decode(body).Ok?
    ensures FeedAll(p, Continued(t)) ==
              Ok(p.(current := p.current[p.field.value := p.current[p.field.value] + Value(t)]))
    decreases |t|
  {
    var f := p.field.value;
    if t == [] {
      assert p.current[f] + "" == p.current[f];
      assert p.current[f := p.current[f]] == p.current;
    } else {
      FeedContinued(p, t[0]);
      var grown := p.current[f] + Decode(t[0]).value;
      var q := p.(current := p.current[f := grown]);
      FeedContinuations(q, t[1..]);
      assert Continued(t)[1..] == Continued(t[1..]);
      ValueSplit(p.current[f], t);
      Overwritten(p.current, f, grown, grown + Value(t[1..]));
    }
  }

  /** A field, however wrapped, sets its keyword to the string it stands for. */
  lemma FeedFieldLines(p: Parser, f: Field, t: Wrapped)
    requires ValidText(t)
    ensures FeedAll(p, FieldLines(Keyword(f) + " ", t)) ==
              Ok(p.(current := p.current[f := Value(t)], field := Some(f)))
  {
    FeedField(p, f, t[0]);
    var first := Decode(t[0]).value;
    var q := p.(current := p.current[f := first], field := Some(f));
    FeedContinuations(q, t[1..]);
    assert FieldLines(Keyword(f) + " ", t)[1..] == Continued(t[1..]);
    Overwritten(p.current, f, first, Value(t));
  }

  /** Parsing a translation touches nothing but the translation. */
  ghost predicate SameEntry(p: Parser, q: Parser) {
    && q.entries == p.entries && q.comments == p.comments
    && forall f <- [MsgCtxt, MsgId, MsgIdPlural] :: Get(q.current, f) == Get(p.current, f)
  }

  lemma {:induction false} FeedPluralLines(p: Parser, ts: seq<Wrapped>, n: nat)
    requires forall t <- ts :: ValidText(t)
    ensures FeedAll(p, PluralLines(ts, n)).Ok? && SameEntry(p, FeedAll(p, PluralLines(ts, n)).value)
    decreases |ts|
  {
    if ts != [] {
      var prefix := "msgstr[" + Numeral(n) + "] ";
      var t := ts[0];
      assert ValidText(t);
      FeedPlural(p, n, t[0]);
      var a := p.(current := p.current[MsgStr := Held(p.current, MsgStr) + Decode(t[0]).value], field := Some(MsgStr));
      FeedContinuations(a, t[1..]);
      var b := a.(current := a.current[MsgStr := a.current[MsgStr] + Value(t[1..])]);
      assert FieldLines(prefix, t)[1..] == Continued(t[1..]);
      FeedAllSplit(p, FieldLines(prefix, t), PluralLines(ts[1..], n + 1));
      FeedPluralLines(b, ts[1..], n + 1);
    }
  }

  lemma FeedTranslations(p: Parser, b: Block)
    requires ValidBlock(b)
    ensures FeedAll(p, TranslationLines(b)).Ok? && SameEntry(p, FeedAll(p, TranslationLines(b)).value)
  {
    if b.plural.None? && |b.translations| == 1 {
      assert Keyword(MsgStr) + " " == "msgstr ";
      FeedFieldLines(p, MsgStr, b.translations[0]);
    } else {
      FeedPluralLines(p, b.translations, 0);
    }
  }

  lemma {:induction false} FeedComments(p: Parser, comments: seq<string>)
    requires forall c <- comments :: Strip(c) == c && StartsWith(c, "#") && !StartsWith(c, "#~")
    ensures FeedAll(p, comments) == Ok(p.(comments := p.comments + comments))
    decreases |comments|
  {
    if comments == [] {
      assert p.comments + [] == p.comments;
    } else {
      var q := p.(comments := p.comments + [comments[0]]);
      assert Feed(p, comments[0]) == Ok(q);
      FeedComments(q, comments[1..]);
      assert p.comments + [comments[0]] + comments[1..] == p.comments + comments;
    }
  }

  // ---- One block ----

  lemma FeedOptLines(p: Parser, f: Field, t: Option<Wrapped>)
    requires t.Some? ==> ValidText(t.value)
    requires f !in p.current
    ensures FeedAll(p, OptLines(f, t)).Ok?
    ensures var q := FeedAll(p, OptLines(f, t)).value;
            && q.entries == p.entries && q.comments == p.comments && Get(q.current, f) == OptValue(t)
            && forall g :: g != f ==> Get(q.current, g) == Get(p.current, g)
  {
    if t.Some? {
      FeedFieldLines(p, f, t.value);
    }
  }

  /** The block's lines up to the translation set exactly its key. */
  lemma KeyParses(b: Block)
    requires ValidBlock(b)
    ensures var lines := KeyLines(b);
            && FeedAll(START, lines).Ok?
            && var p := FeedAll(START, lines).value;
               p.entries == [] && p.comments == b.comments && Get(p.current, MsgCtxt) == OptValue(b.context)
               && Get(p.current, MsgId) == Some(Value(b.id)) && Get(p.current, MsgIdPlural) == OptValue(b.plural)
  {
    var opt, id, plural := OptLines(MsgCtxt, b.context), FieldLines("msgid ", b.id), OptLines(MsgIdPlural, b.plural);
    FeedComments(START, b.comments);
    var p1 := START.(comments := START.comments + b.comments);
    assert p1.comments == b.comments;
    FeedOptLines(p1, MsgCtxt, b.context);
    var p2 := FeedAll(p1, opt).value;
    assert Keyword(MsgId) + " " == "msgid ";
    FeedFieldLines(p2, MsgId, b.id);
    var p3 := p2.(current := p2.current[MsgId := Value(b.id)], field := Some(MsgId));
    assert Get(p2.current, MsgIdPlural) == Get(p1.current, MsgIdPlural) == None;
    FeedOptLines(p3, MsgIdPlural, b.plural);
    FeedAllSplit(START, b.comments, opt);
    FeedAllSplit(START, b.comments + opt, id);
    FeedAllSplit(START, b.comments + opt + id, plural);
    assert Get(p3.current, MsgId) == Some(Value(b.id)) && Get(p3.current, MsgCtxt) == Get(p2.current, MsgCtxt);
  }

  /** A block's lines leave exactly its entry to be flushed. */
  lemma BlockParses(b: Block)
    requires ValidBlock(b)
    ensures Parsed(BlockLines(b)) == Ok(EntryOf(b))
  {
    var key := KeyLines(b);
    KeyParses(b);
    var p := FeedAll(START, key).value;
    FeedTranslations(p, b);
    var q := FeedAll(p, TranslationLines(b)).value;
    FeedAllSplit(START, key, TranslationLines(b));
    KeptFields(p, q);
    FinishedEntry(q, b);
  }

  lemma FinishedEntry(p: Parser, b: Block)
    requires p.entries == [] && p.comments == b.comments && Get(p.current, MsgCtxt) == OptValue(b.context)
    requires Get(p.current, MsgId) == Some(Value(b.id)) && Get(p.current, MsgIdPlural) == OptValue(b.plural)
    ensures Flush(p).entries == EntryOf(b)
  {
    assert Finished(p) == EntryOf(b);
  }

  lemma KeptFields(p: Parser, q: Parser)
    requires SameEntry(p, q)
    ensures Get(q.current, MsgCtxt) == Get(p.current, MsgCtxt)
    ensures Get(q.current, MsgId) == Get(p.current, MsgId)
    ensures Get(q.current, MsgIdPlural) == Get(p.current, MsgIdPlural)
  {
    assert MsgCtxt in [MsgCtxt, MsgId, MsgIdPlural] && MsgId in [MsgCtxt, MsgId, MsgIdPlural];
    assert MsgIdPlural in [MsgCtxt, MsgId, MsgIdPlural];
  }

  // ---- The whole catalog ----

  lemma NothingParses()
    ensures Parsed([]) == Ok([])
  {
    assert Flush(START).entries == [];
  }

  lemma {:induction false} BlankLinesParse(n: nat, rest: seq<string>)
    ensures Parsed(BlankLines(n) + rest) == Parsed(rest)
  {
    if n == 0 {
      assert BlankLines(0) + rest == rest;
    } else {
      assert BlankLines(n) + rest == [] + [""] + (BlankLines(n - 1) + rest);
      ParagraphsAreIndependent([], "", BlankLines(n - 1) + rest);
      BlankLinesParse(n - 1, rest);
      NothingParses();
      BothNothing(Parsed(rest));
    }
  }

  lemma BothNothing(r: Result<seq<Entry>, Error>)
    ensures Both(Ok([]), r) == r && Both(r, Ok([])) == r
  {
    if r.Ok? {
      assert [] + r.value == r.value && r.value + [] == r.value;
    }
  }

  lemma {:induction false} CatalogParses(blocks: seq<Block>)
    requires forall b <- blocks :: ValidBlock(b)
    ensures Parsed(CatalogLines(blocks)) == Ok(EntriesOf(blocks))
    decreases |blocks|
  {
    if blocks == [] {
      NothingParses();
    } else {
      var b, rest := blocks[0], blocks[1..];
      BlockParses(b);
      CatalogParses(rest);
      if rest == [] {
        TrailingBlanks(BlockLines(b), b.gap);
        assert EntryOf(b) + [] == EntryOf(b);
      } else {
        var tail := BlankLines(b.gap) + CatalogLines(rest);
        assert CatalogLines(blocks) == BlockLines(b) + [""] + tail;
        ParagraphsAreIndependent(BlockLines(b), "", tail);
        BlankLinesParse(b.gap, CatalogLines(rest));
      }
    }
  }

  lemma TrailingBlanks(lines: seq<string>, n: nat)
    ensures Parsed(lines + BlankLines(n)) == Parsed(lines)
  {
    if n == 0 {
      assert lines + BlankLines(0) == lines;
    } else {
      assert lines + BlankLines(n) == lines + [""] + (BlankLines(n - 1) + []);
      ParagraphsAreIndependent(lines, "", BlankLines(n - 1) + []);
      BlankLinesParse(n - 1, []);
      NothingParses();
      BothNothing(Parsed(lines));
    }
  }

  /** Any file that, without its obsolete lines and its padding, is a catalog, parses to exactly the entries
      that catalog declares: whatever the quoting, the wrapping, the blank lines and what has been retired. */
  lemma CatalogRoundTrip(lines: seq<string>, blocks: seq<Block>)
    requires forall b <- blocks :: ValidBlock(b)
    requires StripAll(WithoutObsolete(lines)) == CatalogLines(blocks)
    ensures Parsed(lines) == Ok(EntriesOf(blocks))
  {
    ObsoleteIgnored(START, lines);
    PaddingIgnored(START, WithoutObsolete(lines));
    CatalogParses(blocks);
  }

  /** Every string can be written, over any division into pieces, and stands for itself. */
  function Written(pieces: seq<string>): Wrapped {
    if pieces == [] then [] else [Escape(pieces[0])] + Written(pieces[1..])
  }

  function Joined(pieces: seq<string>): string {
    if pieces == [] then "" else pieces[0] + Joined(pieces[1..])
  }

  lemma {:induction false} WrittenValue(pieces: seq<string>)
    requires pieces != []
    ensures ValidText(Written(pieces)) && Value(Written(pieces)) == Joined(pieces)
  {
    DecodeEscape(pieces[0]);
    assert Written(pieces)[1..] == Written(pieces[1..]);
    if |pieces| > 1 {
      WrittenValue(pieces[1..]);
    }
  }

  // ---- Source references ----

  /** A reference: text without white space. */
  predicate Word(w: string) {
    w != [] && forall c <- w :: !IsSpace(c)
  }

  /** A run of references as a comment line carries it, each after a space. */
  function Spaced(words: seq<string>): string {
    if words == [] then "" else " " + words[0] + Spaced(words[1..])
  }

  lemma {:induction false} WordTokens(word: string, part: string, rest: string)
    requires forall c <- part :: !IsSpace(c)
    ensures Tokens(part + rest, word) == Tokens(rest, word + part)
    decreases |part|
  {
    if part == [] {
      assert part + rest == rest && word + part == word;
    } else {
      assert (part + rest)[1..] == part[1..] + rest;
      WordTokens(word + [part[0]], part[1..], rest);
      assert word + [part[0]] + part[1..] == word + part;
    }
  }

  lemma {:induction false} SpacedTokens(words: seq<string>, word: string)
    requires forall w <- words :: Word(w)
    requires word != [] ==> Word(word)
    ensures Tokens(Spaced(words), word) == (if word == [] then [] else [word]) + words
    decreases |words|
  {
    if words != [] {
      var rest := Spaced(words[1..]);
      var w := words[0];
      assert Word(w);
      assert Spaced(words) == " " + (w + rest);
      assert Spaced(words)[1..] == w + rest;
      WordTokens([], w, rest);
      assert [] + w == w;
      SpacedTokens(words[1..], w);
      assert [w] + words[1..] == words;
    }
  }

  function RefLine(words: seq<string>): string {
    "#:" + Spaced(words)
  }

  function RefLines(groups: seq<seq<string>>): seq<string> {
    if groups == [] then [] else [RefLine(groups[0])] + RefLines(groups[1..])
  }

  function Flatten(groups: seq<seq<string>>): seq<string> {
    if groups == [] then [] else groups[0] + Flatten(groups[1..])
  }

  /** The references of an entry are those written, on however many lines. */
  lemma {:induction false} RefsAsWritten(groups: seq<seq<string>>)
    requires forall g <- groups, w <- g :: Word(w)
    ensures Refs(RefLines(groups)) == set w <- Flatten(groups)
  {
    if groups != [] {
      var g := groups[0];
      assert forall w <- g :: Word(w);
      assert RefLine(g)[..2] == "#:" && RefLine(g)[2..] == Spaced(g);
      SpacedTokens(g, []);
      assert [] + g == g;
      RefsAsWritten(groups[1..]);
      assert RefLines(groups)[1..] == RefLines(groups[1..]);
    }
  }

  /** Reflowing the same references over other lines, in another order, is no drift. */
  lemma ReflowIsNoDrift(a: seq<seq<string>>, b: seq<seq<string>>)
    requires forall g <- a + b, w <- g :: Word(w)
    ensures Refs(RefLines(a)) == Refs(RefLines(b)) <==> (forall w :: w in Flatten(a) <==> w in Flatten(b))
  {
    assert forall g <- a :: g in a + b;
    assert forall g <- b :: g in a + b;
    RefsAsWritten(a);
    RefsAsWritten(b);
    var x, y := set w <- Flatten(a), set w <- Flatten(b);
    assert forall w :: w in x <==> w in Flatten(a);
    assert forall w :: w in y <==> w in Flatten(b);
  }

  predicate Solid(w: string) {
    forall k :: 0 <= k < |w| ==> !IsSpace(w[k])
  }

  /** `w` stands in the text at `i` as a whole: without white space, and between white space or an end. */
  predicate StandsAt(text: string, w: string, i: nat) {
    && w != [] && Solid(w) && i + |w| <= |text| && (forall k :: 0 <= k < |w| ==> text[i + k] == w[k])
    && (i == 0 || IsSpace(text[i - 1])) && (i + |w| == |text| || IsSpace(text[i + |w|]))
  }

  /** In a text that opens with a word, that word alone stands before the word's end. */
  lemma StandsFirst(word: string, rest: string, w: string, i: nat)
    requires Solid(word) && (rest == [] || IsSpace(rest[0])) && i <= |word|
    ensures StandsAt(word + rest, w, i) <==> i == 0 && w == word && word != []
  {
    var text := word + rest;
    assert forall k :: 0 <= k < |word| ==> text[k] == word[k];
    assert rest != [] ==> text[|word|] == rest[0];
    if |word| < i + |w| <= |text| {
      var k := |word| - i;
      assert IsSpace(text[i + k]);
      assert !StandsAt(text, w, i) by {
        assert text[i + k] == w[k] ==> IsSpace(w[k]);
      }
    } else if StandsAt(text, w, i) {
      assert i == 0 && |w| == |word|;
      assert w == word;
    }
  }

  lemma StandsBehind(word: string, rest: string, w: string, i: nat)
    requires rest != [] && IsSpace(rest[0]) && i > |word|
    ensures StandsAt(word + rest, w, i) <==> StandsAt(rest[1..], w, i - |word| - 1)
  {
    var text, n := word + rest, |word| + 1;
    assert forall m :: n <= m < |text| ==> text[m] == rest[1..][m - n];
    assert text[|word|] == rest[0];
  }

  ghost predicate Stands(text: string, w: string) {
    exists i: nat :: StandsAt(text, w, i)
  }

  lemma StandsAlone(word: string, w: string)
    requires Solid(word)
    ensures Stands(word, w) <==> w == word && word != []
  {
    assert word + [] == word;
    forall i: nat | i <= |word|
      ensures StandsAt(word, w, i) <==> i == 0 && w == word && word != []
    {
      StandsFirst(word, [], w, i);
    }
    assert w == word && word != [] ==> StandsAt(word, w, 0);
  }

  lemma StandsBeside(word: string, rest: string, w: string)
    requires Solid(word) && rest != [] && IsSpace(rest[0])
    ensures Stands(word + rest, w) <==> (w == word && word != []) || Stands(rest[1..], w)
  {
    forall i: nat
      ensures i <= |word| ==> (StandsAt(word + rest, w, i) <==> i == 0 && w == word && word != [])
      ensures i > |word| ==> (StandsAt(word + rest, w, i) <==> StandsAt(rest[1..], w, i - |word| - 1))
    {
      if i <= |word| {
        StandsFirst(word, rest, w, i);
      } else {
        StandsBehind(word, rest, w, i);
      }
    }
    if i: nat :| StandsAt(rest[1..], w, i) {
      assert StandsAt(word + rest, w, i + |word| + 1);
    }
    assert w == word && word != [] ==> StandsAt(word + rest, w, 0);
  }

  lemma {:induction false} TokensStand(s: string, word: string, w: string)
    requires Solid(word)
    ensures w in Tokens(s, word) <==> Stands(word + s, w)
    decreases |s|
  {
    if s == [] {
      assert word + s == word;
      StandsAlone(word, w);
    } else if IsSpace(s[0]) {
      TokensStand(s[1..], [], w);
      assert [] + s[1..] == s[1..];
      StandsBeside(word, s, w);
    } else {
      assert word + s == word + [s[0]] + s[1..];
      TokensStand(s[1..], word + [s[0]], w);
    }
  }

  lemma {:induction false} RefsIn(comments: seq<string>, w: string)
    ensures w in Refs(comments) <==> exists c <- comments :: w in LineRefs(c)
  {
    if comments != [] {
      RefsIn(comments[1..], w);
    }
  }

  /** A reference of an entry is a word of one of its `#:` lines; no other comment adds any. */
  lemma RefsMean(comments: seq<string>, w: string)
    ensures w in Refs(comments) <==>
              exists c <- comments :: |c| >= 2 && c[0] == '#' && c[1] == ':' && Stands(c[2..], w)
  {
    RefsIn(comments, w);
    forall c <- comments
      ensures w in LineRefs(c) <==> |c| >= 2 && c[0] == '#' && c[1] == ':' && Stands(c[2..], w)
    {
      LineMeans(c, w);
    }
  }

  lemma LineMeans(c: string, w: string)
    ensures w in LineRefs(c) <==> |c| >= 2 && c[0] == '#' && c[1] == ':' && Stands(c[2..], w)
  {
    if |c| >= 2 && c[0] == '#' && c[1] == ':' {
      assert c[..2] == "#:";
      TokensStand(c[2..], [], w);
      assert [] + c[2..] == c[2..];
    } else {
      assert "#:"[0] == '#' && "#:"[1] == ':';
    }
  }

  // ---- As the format spells it ----

  lemma EscapeStands(c: char)
    ensures Decode(['\\', c]) == Ok([Unescape(c)])
  {
    assert ['\\', c][2..] == [] && [Unescape(c)] + [] == [Unescape(c)];
  }

  /** The escapes of the format, and a letter it does not name. */
  lemma EscapesSpelled(other: char)
    requires other !in ['n', 't', 'r', 'a', 'b', 'f', 'v', '0']
    ensures Decode(['\\', 'n']) == Ok(['\n']) && Decode(['\\', 't']) == Ok(['\t']) && Decode(['\\', 'r']) == Ok(['\r'])
    ensures Decode(['\\', 'a']) == Ok(['\U{07}']) && Decode(['\\', 'b']) == Ok(['\U{08}'])
    ensures Decode(['\\', 'f']) == Ok(['\U{0C}']) && Decode(['\\', 'v']) == Ok(['\U{0B}'])
    ensures Decode(['\\', '0']) == Ok(['\U{00}']) && Decode(['\\', other]) == Ok([other])
  {
    forall c: char
      ensures Decode(['\\', c]) == Ok([Unescape(c)])
    {
      EscapeStands(c);
    }
  }

  /** The four keywords of the format. */
  lemma KeywordsSpelled()
    ensures Keyword(MsgCtxt) == "msgctxt" && Keyword(MsgId) == "msgid"
    ensures Keyword(MsgIdPlural) == "msgid_plural" && Keyword(MsgStr) == "msgstr"
  {
  }
}
