/** The PEM export of a certificate (components/kio/CardRenderers.cpp, derToPem), and the reader its output is
    for: base64 of RFC 4648 section 4 in the frame and line length of RFC 7468 section 2. */
module Pem {
  import opened Wrappers

  type Byte = b: nat | b < 256

  type Sextet = d: nat | d < 64

  const BEGIN := "-----BEGIN CERTIFICATE-----"
  const END := "-----END CERTIFICATE-----"
  const LINE := 64

  // ---- Base64 ----

  function Letter(d: Sextet): char {
    if d < 26 then ('A' as int + d) as char
    else if d < 52 then ('a' as int + (d - 26)) as char
    else if d < 62 then ('0' as int + (d - 52)) as char
    else if d == 62 then '+'
    else '/'
  }

  /** The value of a letter of the alphabet, as RFC 4648 tabulates it. */
  function LetterValue(c: char): Option<Sextet> {
    if 'A' <= c <= 'Z' then Some(c as int - 'A' as int)
    else if 'a' <= c <= 'z' then Some(c as int - 'a' as int + 26)
    else if '0' <= c <= '9' then Some(c as int - '0' as int + 52)
    else if c == '+' then Some(62)
    else if c == '/' then Some(63)
    else None
  }

  function Letters(s0: Sextet, s1: Sextet, s2: Sextet, s3: Sextet): (g: string)
    ensures |g| == 4
  {
    [Letter(s0), Letter(s1), Letter(s2), Letter(s3)]
  }

  function EncodeOne(x: Byte): (g: string)
    ensures |g| == 4
  {
    [Letter(x / 4), Letter(x % 4 * 16), '=', '=']
  }

  function EncodeTwo(x: Byte, y: Byte): (g: string)
    ensures |g| == 4
  {
    [Letter(x / 4), Letter(x % 4 * 16 + y / 16), Letter(y % 16 * 4), '=']
  }

  function EncodeFull(x: Byte, y: Byte, z: Byte): (g: string)
    ensures |g| == 4
  {
    Letters(x / 4, x % 4 * 16 + y / 16, y % 16 * 4 + z / 64, z % 64)
  }

  /** `QByteArray::toBase64`. */
  function Encode(b: seq<Byte>): string {
    if |b| == 0 then ""
    else if |b| == 1 then EncodeOne(b[0])
    else if |b| == 2 then EncodeTwo(b[0], b[1])
    else EncodeFull(b[0], b[1], b[2]) + Encode(b[3..])
  }

  /** The bytes of one group of four characters; padding only in the last group. */
  function DecodeGroup(g: string, last: bool): Option<seq<Byte>>
    requires |g| == 4
  {
    var s0, s1 := LetterValue(g[0]), LetterValue(g[1]);
    if s0.None? || s1.None? then None
    else if last && g[2] == '=' && g[3] == '=' then Some([s0.value * 4 + s1.value / 16])
    else
      var s2 := LetterValue(g[2]);
      if s2.None? then None
      else if last && g[3] == '=' then Some([s0.value * 4 + s1.value / 16, s1.value % 16 * 16 + s2.value / 4])
      else
        var s3 := LetterValue(g[3]);
        if s3.None? then None
        else Some([s0.value * 4 + s1.value / 16, s1.value % 16 * 16 + s2.value / 4, s2.value % 4 * 64 + s3.value])
  }

  function Decode(s: string): Option<seq<Byte>> {
    if s == "" then Some([])
    else if |s| < 4 then None
    else
      match DecodeGroup(s[..4], |s| == 4)
      case None => None
      case Some(first) =>
        match Decode(s[4..])
        case None => None
        case Some(rest) => Some(first + rest)
  }

  lemma LetterRoundTrip(d: Sextet)
    ensures LetterValue(Letter(d)) == Some(d)
    ensures Letter(d) != '=' && Letter(d) != '\n' && Letter(d) != '-'
  {
  }

  lemma DecodeOne(x: Byte)
    ensures DecodeGroup(EncodeOne(x), true) == Some([x])
    ensures '\n' !in EncodeOne(x)
  {
    LetterRoundTrip(x / 4);
    LetterRoundTrip(x % 4 * 16);
  }

  lemma DecodeTwo(x: Byte, y: Byte)
    ensures DecodeGroup(EncodeTwo(x, y), true) == Some([x, y])
    ensures '\n' !in EncodeTwo(x, y)
  {
    SextetBytes(x, y, 0);
    LetterRoundTrip(x / 4);
    LetterRoundTrip(x % 4 * 16 + y / 16);
    LetterRoundTrip(y % 16 * 4);
  }

  /** Regrouping 24 bits as sextets and back. */
  lemma SextetBytes(x: Byte, y: Byte, z: Byte)
    ensures x / 4 < 64 && x % 4 * 16 + y / 16 < 64 && y % 16 * 4 + z / 64 < 64
    ensures (x / 4) * 4 + (x % 4 * 16 + y / 16) / 16 == x
    ensures (x % 4 * 16 + y / 16) % 16 * 16 + (y % 16 * 4 + z / 64) / 4 == y
    ensures (y % 16 * 4 + z / 64) % 4 * 64 + z % 64 == z
  {
  }

  /** Four letters decode to the bytes of their values. */
  lemma DecodeLetters(s0: Sextet, s1: Sextet, s2: Sextet, s3: Sextet, x: Byte, y: Byte, z: Byte, last: bool)
    requires s0 * 4 + s1 / 16 == x && s1 % 16 * 16 + s2 / 4 == y && s2 % 4 * 64 + s3 == z
    ensures DecodeGroup(Letters(s0, s1, s2, s3), last) == Some([x, y, z])
  {
    LetterRoundTrip(s0);
    LetterRoundTrip(s1);
    LetterRoundTrip(s2);
    LetterRoundTrip(s3);
  }

  lemma DecodeFull(x: Byte, y: Byte, z: Byte, last: bool)
    ensures DecodeGroup(EncodeFull(x, y, z), last) == Some([x, y, z])
  {
    SextetBytes(x, y, z);
    DecodeLetters(x / 4, x % 4 * 16 + y / 16, y % 16 * 4 + z / 64, z % 64, x, y, z, last);
  }

  lemma FullHasNoBreak(x: Byte, y: Byte, z: Byte)
    ensures '\n' !in EncodeFull(x, y, z)
  {
    SextetBytes(x, y, z);
    LetterRoundTrip(x / 4);
    LetterRoundTrip(x % 4 * 16 + y / 16);
    LetterRoundTrip(y % 16 * 4 + z / 64);
    LetterRoundTrip(z % 64);
  }

  lemma EncodeEmpty(b: seq<Byte>)
    ensures Encode(b) == "" <==> b == []
  {
  }

  /** A group in front is decoded on its own. */
  lemma DecodePrefix(group: string, rest: string)
    requires |group| == 4 && DecodeGroup(group, rest == "").Some? && Decode(rest).Some?
    ensures Decode(group + rest) == Some(DecodeGroup(group, rest == "").value + Decode(rest).value)
  {
    var s := group + rest;
    assert s[..4] == group && s[4..] == rest;
    assert |s| == 4 <==> rest == "";
  }

  lemma DecodeLast(group: string, bytes: seq<Byte>)
    requires |group| == 4 && DecodeGroup(group, true) == Some(bytes)
    ensures Decode(group) == Some(bytes)
  {
    DecodePrefix(group, "");
    assert group + "" == group && bytes + [] == bytes;
  }

  lemma DecodeEncodeOne(x: Byte)
    ensures Decode(EncodeOne(x)) == Some([x])
  {
    DecodeOne(x);
    DecodeLast(EncodeOne(x), [x]);
  }

  lemma DecodeEncodeTwo(x: Byte, y: Byte)
    ensures Decode(EncodeTwo(x, y)) == Some([x, y])
  {
    DecodeTwo(x, y);
    DecodeLast(EncodeTwo(x, y), [x, y]);
  }

  lemma DecodeEncodeFull(x: Byte, y: Byte, z: Byte, rest: seq<Byte>)
    requires Decode(Encode(rest)) == Some(rest)
    ensures Decode(EncodeFull(x, y, z) + Encode(rest)) == Some([x, y, z] + rest)
  {
    EncodeEmpty(rest);
    DecodeFull(x, y, z, Encode(rest) == "");
    DecodePrefix(EncodeFull(x, y, z), Encode(rest));
  }

  lemma EncodeShort(b: seq<Byte>)
    ensures |b| == 0 ==> Encode(b) == "" && b == []
    ensures |b| == 1 ==> Encode(b) == EncodeOne(b[0]) && b == [b[0]]
    ensures |b| == 2 ==> Encode(b) == EncodeTwo(b[0], b[1]) && b == [b[0], b[1]]
  {
  }

  lemma EncodeLong(b: seq<Byte>)
    requires |b| > 2
    ensures Encode(b) == EncodeFull(b[0], b[1], b[2]) + Encode(b[3..])
  {
  }

  lemma ThreeAhead(b: seq<Byte>)
    requires |b| > 2
    ensures b == [b[0], b[1], b[2]] + b[3..]
  {
  }

  lemma {:induction false} DecodeEncode(b: seq<Byte>)
    ensures Decode(Encode(b)) == Some(b)
  {
    EncodeShort(b);
    if |b| == 0 {
    } else if |b| == 1 {
      DecodeEncodeOne(b[0]);
    } else if |b| == 2 {
      DecodeEncodeTwo(b[0], b[1]);
    } else {
      EncodeLong(b);
      ThreeAhead(b);
      DecodeEncode(b[3..]);
      DecodeEncodeFull(b[0], b[1], b[2], b[3..]);
    }
  }

  lemma {:induction false} EncodeHasNoBreak(b: seq<Byte>)
    ensures '\n' !in Encode(b)
  {
    if |b| == 1 {
      DecodeOne(b[0]);
    } else if |b| == 2 {
      DecodeTwo(b[0], b[1]);
    } else if |b| > 2 {
      FullHasNoBreak(b[0], b[1], b[2]);
      EncodeHasNoBreak(b[3..]);
    }
  }

  // ---- The frame ----

  function Min(a: nat, b: nat): nat {
    if a < b then a else b
  }

  /** The text cut into pieces of one line's length, each ended by a line break. */
  function Wrap(s: string): string {
    if s == "" then "" else s[..Min(LINE, |s|)] + "\n" + Wrap(s[Min(LINE, |s|)..])
  }

  function Framed(begin: string, body: string, end: string): string {
    begin + "\n" + (body + (end + "\n"))
  }

  function ToPem(der: seq<Byte>): string {
    Framed(BEGIN, Wrap(Encode(der)), END)
  }

  lemma WrapFrom(b64: string, i: nat)
    requires i < |b64|
    ensures Wrap(b64[i..]) == b64[i..Min(i + LINE, |b64|)] + "\n" + Wrap(b64[Min(i + LINE, |b64|)..])
  {
    var rest := b64[i..];
    assert rest[..Min(LINE, |rest|)] == b64[i..Min(i + LINE, |b64|)];
    assert rest[Min(LINE, |rest|)..] == b64[Min(i + LINE, |b64|)..];
  }

  /** The body's loop: sixty-four characters a turn, and a line break. */
  method AppendWrapped(head: string, b64: string) returns (pem: string)
    ensures pem == head + Wrap(b64)
  {
    pem := head;
    var i := 0;
    assert b64[0..] == b64;
    while i < |b64|
      invariant 0 <= i
      invariant pem + Wrap(b64[Min(i, |b64|)..]) == head + Wrap(b64)
    {
      WrapFrom(b64, i);
      ghost var before, rest := pem, Wrap(b64[Min(i + LINE, |b64|)..]);
      pem := pem + b64[i..Min(i + LINE, |b64|)];
      pem := pem + "\n";
      assert before + (b64[i..Min(i + LINE, |b64|)] + "\n" + rest) == pem + rest;
      i := i + LINE;
    }
    assert pem + "" == pem;
  }

  lemma Reframe(begin: string, body: string, end: string)
    ensures (begin + "\n" + body) + (end + "\n") == Framed(begin, body, end)
  {
  }

  /** `derToPem`. */
  method DerToPem(der: seq<Byte>) returns (pem: string)
    ensures pem == ToPem(der)
  {
    pem := AppendWrapped(BEGIN + "\n", Encode(der));
    Reframe(BEGIN, Wrap(Encode(der)), END);
    pem := pem + (END + "\n");
  }

  // ---- The reader ----

  /** The lines of a text, `part` being the one read so far; text after the last line break is no line. */
  function Lines(s: string, part: string): seq<string> {
    if s == "" then [] else if s[0] == '\n' then [part] + Lines(s[1..], "") else Lines(s[1..], part + [s[0]])
  }

  function Concat(lines: seq<string>): string {
    if lines == [] then "" else lines[0] + Concat(lines[1..])
  }

  /** The body of a framed text: what stands between the two boundary lines. */
  function Body(text: string): Option<seq<string>> {
    var lines := Lines(text, "");
    if |lines| >= 2 && lines[0] == BEGIN && lines[|lines| - 1] == END then Some(lines[1..|lines| - 1]) else None
  }

  function FromPem(text: string): Option<seq<Byte>> {
    match Body(text)
    case None => None
    case Some(lines) => Decode(Concat(lines))
  }

  function Chunks(s: string): seq<string> {
    if s == "" then [] else [s[..Min(LINE, |s|)]] + Chunks(s[Min(LINE, |s|)..])
  }

  lemma {:induction false} LinesOf(line: string, part: string, rest: string)
    requires '\n' !in line
    ensures Lines(line + "\n" + rest, part) == [part + line] + Lines(rest, "")
    decreases |line|
  {
    var s := line + "\n" + rest;
    if line == "" {
      assert s == "\n" + rest && s[1..] == rest && part + line == part;
    } else {
      assert s[1..] == line[1..] + "\n" + rest;
      LinesOf(line[1..], part + [line[0]], rest);
      assert part + [line[0]] + line[1..] == part + line;
    }
  }

  lemma WrapFirst(s: string, rest: string)
    requires s != ""
    ensures var n := Min(LINE, |s|); Wrap(s) + rest == s[..n] + "\n" + (Wrap(s[n..]) + rest)
  {
    var n := Min(LINE, |s|);
    JoinedLeft(s[..n] + "\n", Wrap(s[n..]), rest);
  }

  lemma JoinedLeft<T>(a: seq<T>, b: seq<T>, c: seq<T>)
    ensures a + b + c == a + (b + c)
  {
  }

  lemma ChunksFirst(s: string, tail: seq<string>)
    requires s != ""
    ensures var n := Min(LINE, |s|); Chunks(s) + tail == [s[..n]] + (Chunks(s[n..]) + tail)
  {
    var n := Min(LINE, |s|);
    JoinedLeft([s[..n]], Chunks(s[n..]), tail);
  }

  lemma {:induction false} WrapLines(s: string, rest: string)
    requires '\n' !in s
    ensures Lines(Wrap(s) + rest, "") == Chunks(s) + Lines(rest, "")
    decreases |s|
  {
    if s == "" {
      assert Wrap(s) + rest == rest;
      assert [] + Lines(rest, "") == Lines(rest, "");
    } else {
      var n := Min(LINE, |s|);
      var line, more := s[..n], s[n..];
      WrapLines(more, rest);
      WrapFirst(s, rest);
      ChunksFirst(s, Lines(rest, ""));
      LinesOf(line, "", Wrap(more) + rest);
      assert "" + line == line;
    }
  }

  lemma {:induction false} ChunksConcat(s: string)
    ensures Concat(Chunks(s)) == s
    decreases |s|
  {
    if s != "" {
      var n := Min(LINE, |s|);
      ChunksConcat(s[n..]);
      assert Chunks(s)[1..] == Chunks(s[n..]);
      assert s == s[..n] + s[n..];
    }
  }

  /** Every line but the last is full, and none is empty. */
  lemma {:induction false} ChunkLengths(s: string)
    ensures forall i :: 0 <= i < |Chunks(s)| ==> 1 <= |Chunks(s)[i]| <= LINE
    ensures forall i :: 0 <= i < |Chunks(s)| - 1 ==> |Chunks(s)[i]| == LINE
    decreases |s|
  {
    if s != "" {
      ChunkLengths(s[Min(LINE, |s|)..]);
    }
  }

  lemma FramedLines(begin: string, b64: string, end: string)
    requires '\n' !in begin && '\n' !in b64 && '\n' !in end
    ensures Lines(Framed(begin, Wrap(b64), end), "") == [begin] + Chunks(b64) + [end]
  {
    var tail := end + "\n";
    LinesOf(begin, "", Wrap(b64) + tail);
    WrapLines(b64, tail);
    LinesOf(end, "", "");
    assert tail + "" == tail && "" + begin == begin && "" + end == end;
    assert [begin] + (Chunks(b64) + [end]) == [begin] + Chunks(b64) + [end];
  }

  lemma PemBody(der: seq<Byte>)
    ensures Body(ToPem(der)) == Some(Chunks(Encode(der)))
  {
    EncodeHasNoBreak(der);
    var b64 := Encode(der);
    assert '\n' !in BEGIN && '\n' !in END;
    FramedLines(BEGIN, b64, END);
    var lines := [BEGIN] + Chunks(b64) + [END];
    assert lines[1..|lines| - 1] == Chunks(b64);
  }

  /** Whatever the certificate's bytes, the export reads back as those bytes. */
  lemma PemRoundTrip(der: seq<Byte>)
    ensures FromPem(ToPem(der)) == Some(der)
  {
    PemBody(der);
    DecodeEncode(der);
    ChunksConcat(Encode(der));
  }

  /** The export is the frame of RFC 7468 section 5 around the base64 text, in lines of 64 characters but for the
      last, with none for no bytes. */
  lemma PemLines(der: seq<Byte>)
    ensures Body(ToPem(der)).Some?
    ensures var lines := Body(ToPem(der)).value;
            && Lines(ToPem(der), "") == ["-----BEGIN CERTIFICATE-----"] + lines + ["-----END CERTIFICATE-----"]
            && Concat(lines) == Encode(der)
            && (lines == [] <==> der == [])
            && (forall i :: 0 <= i < |lines| ==> 1 <= |lines[i]| <= 64)
            && (forall i :: 0 <= i < |lines| - 1 ==> |lines[i]| == 64)
  {
    PemBody(der);
    PemFrame(der);
    ChunkLengths(Encode(der));
    ChunksConcat(Encode(der));
    EncodeEmpty(der);
  }

  lemma PemFrame(der: seq<Byte>)
    ensures Lines(ToPem(der), "") == [BEGIN] + Chunks(Encode(der)) + [END]
  {
    EncodeHasNoBreak(der);
    assert '\n' !in BEGIN && '\n' !in END;
    FramedLines(BEGIN, Encode(der), END);
  }

  // ---- The encoding of RFC 4648, section 4 ----

  /** The standard's table: capitals, small letters, digits, and two more. */
  lemma Alphabet(d: Sextet)
    ensures d < 26 ==> 'A' <= Letter(d) <= 'Z' && Letter(d) as int - 'A' as int == d
    ensures 26 <= d < 52 ==> 'a' <= Letter(d) <= 'z' && Letter(d) as int - 'a' as int == d - 26
    ensures 52 <= d < 62 ==> '0' <= Letter(d) <= '9' && Letter(d) as int - '0' as int == d - 52
    ensures Letter(62) == '+' && Letter(63) == '/'
  {
  }

  /** A group of four letters carries its bytes' bits most significant first; a short last group is filled up with
      zero bits and padding. */
  lemma GroupBits(x: Byte, y: Byte, z: Byte, a: Sextet, b: Sextet, c: Sextet, d: Sextet)
    ensures a * 0x40000 + b * 0x1000 + c * 0x40 + d == x * 0x10000 + y * 0x100 + z ==>
              Encode([x, y, z]) == [Letter(a), Letter(b), Letter(c), Letter(d)]
    ensures a * 0x1000 + b * 0x40 + c == x * 0x400 + y * 4 ==> Encode([x, y]) == [Letter(a), Letter(b), Letter(c), '=']
    ensures a * 0x40 + b == x * 0x10 ==> Encode([x]) == [Letter(a), Letter(b), '=', '=']
  {
    if a * 0x40000 + b * 0x1000 + c * 0x40 + d == x * 0x10000 + y * 0x100 + z {
      BitsSplit(x, y, z, a, b, c, d);
      EncodeLong([x, y, z]);
      assert [x, y, z][3..] == [];
    }
    if a * 0x1000 + b * 0x40 + c == x * 0x400 + y * 4 {
      BitsSplitTwo(x, y, a, b, c);
    }
  }

  lemma BitsSplit(x: Byte, y: Byte, z: Byte, a: Sextet, b: Sextet, c: Sextet, d: Sextet)
    requires a * 0x40000 + b * 0x1000 + c * 0x40 + d == x * 0x10000 + y * 0x100 + z
    ensures a == x / 4 && b == x % 4 * 16 + y / 16 && c == y % 16 * 4 + z / 64 && d == z % 64
  {
  }

  lemma BitsSplitTwo(x: Byte, y: Byte, a: Sextet, b: Sextet, c: Sextet)
    requires a * 0x1000 + b * 0x40 + c == x * 0x400 + y * 4
    ensures a == x / 4 && b == x % 4 * 16 + y / 16 && c == y % 16 * 4
  {
  }

  /** The standard's own examples, section 10: "f", "fo" and "foo". */
  lemma Examples()
    ensures Encode([0x66]) == "Zg==" && Encode([0x66, 0x6F]) == "Zm8=" && Encode([0x66, 0x6F, 0x6F]) == "Zm9v"
  {
    GroupBits(0x66, 0x6F, 0x6F, 25, 38, 61, 47);
    GroupBits(0x66, 0x6F, 0, 25, 38, 60, 0);
    GroupBits(0x66, 0, 0, 25, 32, 0, 0);
  }
}
