/** Telling one physical reader from another by its name (SmartCardHandler::readerSerialKey, readerBaseName and
    sameReaderUnit): a reader that is enumerated again keeps its model and its serial and changes its indices. */
module ReaderNames {
  import opened Text

  /** The last index below `n` holding `c`, or -1. */
  function LastIndex(s: string, c: char, n: nat): (i: int)
    requires n <= |s|
    ensures -1 <= i < n && (i >= 0 ==> s[i] == c)
    ensures forall k :: i < k < n ==> s[k] != c
  {
    if n == 0 then -1 else if s[n - 1] == c then n - 1 else LastIndex(s, c, n - 1)
  }

  predicate HasDigit(s: string) {
    exists c <- s :: '0' <= c <= '9'
  }

  /** The unit serial: the last parenthesized group, unless too short or without a digit. */
  function SerialKey(name: string): string {
    var close := LastIndex(name, ')', |name|);
    if close < 1 then ""
    else
      var open := LastIndex(name, '(', close);
      if open < 0 then ""
      else
        var key := Strip(name[open + 1..close]);
        if |key| < 4 || !HasDigit(key) then "" else key
  }

  predicate IsHex(c: char) {
    '0' <= c <= '9' || 'A' <= c <= 'F' || 'a' <= c <= 'f'
  }

  /** A pcsc-lite enumeration index; the pattern's end also stands before one final line break. */
  predicate IsSlotIndex(token: string) {
    |token| >= 2 && IsHex(token[0]) && IsHex(token[1]) && (|token| == 2 || (|token| == 3 && token[2] == '\n'))
  }

  /** The tokens less up to `n` trailing indices. */
  function DropIndices(tokens: seq<string>, n: nat): seq<string> {
    if n == 0 || tokens == [] || !IsSlotIndex(tokens[|tokens| - 1]) then tokens
    else DropIndices(tokens[..|tokens| - 1], n - 1)
  }

  /** The name less its last parenthesized group. */
  function WithoutSerial(name: string): string {
    var close := LastIndex(name, ')', |name|);
    if close < 1 then name
    else
      var open := LastIndex(name, '(', close);
      if open < 0 then name else name[..open] + name[close + 1..]
  }

  function BaseTokens(name: string): seq<string> {
    DropIndices(Split(WithoutSerial(name), ' ', []), 2)
  }

  function BaseName(name: string): string {
    Join(BaseTokens(name), ' ')
  }

  /** `readerBaseName`'s loop over the trailing tokens. */
  method ReaderBaseName(name: string) returns (base: string)
    ensures base == BaseName(name)
  {
    var tokens := Split(WithoutSerial(name), ' ', []);
    var stripped := 0;
    while stripped < 2 && tokens != []
      invariant 0 <= stripped <= 2
      invariant DropIndices(tokens, 2 - stripped) == BaseTokens(name)
    {
      if !IsSlotIndex(tokens[|tokens| - 1]) {
        break;
      }
      tokens := tokens[..|tokens| - 1];
      stripped := stripped + 1;
    }
    return Join(tokens, ' ');
  }

  predicate SameUnit(a: string, b: string) {
    SerialKey(a) != "" && SerialKey(a) == SerialKey(b) && BaseName(a) == BaseName(b)
  }

  // ---- Re-enumeration ----

  /** The name pcsc-lite mints: model, serial, and two enumeration indices. */
  function Minted(model: string, serial: string, i: string, j: string): string {
    model + " (" + serial + ") " + i + " " + j
  }

  /** What stands between the parentheses of the last group. */
  predicate IsGroup(s: string) {
    '(' !in s && ')' !in s
  }

  predicate Qualifies(s: string) {
    |s| >= 4 && exists k :: 0 <= k < |s| && '0' <= s[k] <= '9'
  }

  predicate IsIndex(token: string) {
    && |token| == 2
    && forall k :: 0 <= k < 2 ==> '0' <= token[k] <= '9' || 'A' <= token[k] <= 'F' || 'a' <= token[k] <= 'f'
  }

  lemma DigitSomewhere(s: string)
    ensures HasDigit(s) <==> exists k :: 0 <= k < |s| && '0' <= s[k] <= '9'
  {
    if HasDigit(s) {
      var c :| c in s && '0' <= c <= '9';
      var k :| 0 <= k < |s| && s[k] == c;
      assert '0' <= s[k] <= '9';
    }
    if k :| 0 <= k < |s| && '0' <= s[k] <= '9' {
      assert s[k] in s;
    }
  }

  lemma SerialGroup(model: string, serial: string, i: string, j: string)
    requires IsGroup(serial) && IsIndex(i) && IsIndex(j)
    ensures var name := Minted(model, serial, i, j);
            var open, close := |model| + 1, |model| + 2 + |serial|;
            && LastIndex(name, ')', |name|) == close && LastIndex(name, '(', close) == open
            && name[open + 1..close] == serial
            && name[..open] == model + " " && name[close + 1..] == " " + i + " " + j
  {
    var name := Minted(model, serial, i, j);
    var open, close := |model| + 1, |model| + 2 + |serial|;
    var tail := " " + i + " " + j;
    assert name == model + " (" + serial + ")" + tail;
    assert name[open] == '(' && name[close] == ')';
    assert name[open + 1..close] == serial && name[close + 1..] == tail && name[..open] == model + " ";
    assert ')' !in tail;
    forall k | close < k < |name|
      ensures name[k] != ')'
    {
      assert name[k] == tail[k - close - 1];
    }
    forall k | open < k < close
      ensures name[k] != '('
    {
      assert name[k] == serial[k - open - 1];
    }
  }

  lemma IndexTokens(i: string, j: string)
    requires IsIndex(i) && IsIndex(j)
    ensures Split(" " + i + " " + j, ' ', []) == [i, j]
  {
    assert " " + i + " " + j == [] + [' '] + (i + [' '] + j);
    SplitConcat([], i + [' '] + j, ' ', []);
    SplitConcat(i, j, ' ', []);
    SplitRun(i, ' ', []);
    SplitRun(j, ' ', []);
    assert [] + i == i && [] + j == j;
  }

  lemma TwoIndicesDropped(words: seq<string>, i: string, j: string)
    requires IsIndex(i) && IsIndex(j)
    ensures DropIndices(words + [i, j], 2) == words
  {
    var all := words + [i, j];
    assert all[..|all| - 1] == words + [i] && (words + [i])[..|words|] == words;
    assert DropIndices(words + [i], 1) == words;
  }

  lemma MintedWithoutSerial(model: string, serial: string, i: string, j: string)
    requires IsGroup(serial) && IsIndex(i) && IsIndex(j)
    ensures WithoutSerial(Minted(model, serial, i, j)) == model + [' '] + (" " + i + " " + j)
  {
    SerialGroup(model, serial, i, j);
    var name := Minted(model, serial, i, j);
    assert WithoutSerial(name) == (model + " ") + (" " + i + " " + j);
    assert model + " " == model + [' '];
  }

  lemma MintedTokens(model: string, serial: string, i: string, j: string)
    requires IsGroup(serial) && IsIndex(i) && IsIndex(j)
    ensures BaseTokens(Minted(model, serial, i, j)) == Split(model, ' ', [])
  {
    MintedWithoutSerial(model, serial, i, j);
    SplitConcat(model, " " + i + " " + j, ' ', []);
    IndexTokens(i, j);
    TwoIndicesDropped(Split(model, ' ', []), i, j);
  }

  lemma MintedKey(model: string, serial: string, i: string, j: string)
    requires IsGroup(serial) && IsIndex(i) && IsIndex(j)
    ensures SerialKey(Minted(model, serial, i, j)) == if Qualifies(Strip(serial)) then Strip(serial) else ""
  {
    SerialGroup(model, serial, i, j);
    DigitSomewhere(Strip(serial));
  }

  /** Two minted names are one unit exactly when the serial qualifies and both serial and model agree, the serial
      up to the blanks around it and the model up to its spacing, whatever indices either carries. */
  lemma SameUnitIff(m1: string, s1: string, i1: string, j1: string, m2: string, s2: string, i2: string, j2: string)
    requires IsGroup(s1) && IsGroup(s2) && IsIndex(i1) && IsIndex(j1) && IsIndex(i2) && IsIndex(j2)
    ensures SameUnit(Minted(m1, s1, i1, j1), Minted(m2, s2, i2, j2)) <==>
              Qualifies(Strip(s1)) && Strip(s1) == Strip(s2) && Split(m1, ' ', []) == Split(m2, ' ', [])
  {
    MintedKey(m1, s1, i1, j1);
    MintedKey(m2, s2, i2, j2);
    MintedTokens(m1, s1, i1, j1);
    MintedTokens(m2, s2, i2, j2);
    SplitRuns(m1, ' ', []);
    SplitRuns(m2, ' ', []);
    SplitJoin(Split(m1, ' ', []), ' ');
    SplitJoin(Split(m2, ' ', []), ' ');
  }

  /** A reader that comes back under other indices is recognised. */
  lemma ReenumerationRecognised(model: string, serial: string, i: string, j: string, k: string, l: string)
    requires IsGroup(serial) && Qualifies(Strip(serial)) && IsIndex(i) && IsIndex(j) && IsIndex(k) && IsIndex(l)
    ensures SameUnit(Minted(model, serial, i, j), Minted(model, serial, k, l))
  {
    SameUnitIff(model, serial, i, j, model, serial, k, l);
  }
}
