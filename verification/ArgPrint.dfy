// Writing values the way a command line spells them, and reading them back.

module ArgPrint {
  import opened Guest
  import opened ArgReader
  import opened ArgMatch

  /** One byte inside quotes. */
  function EscapeByte(b: byte): Bytes {
    if b == STAR then [STAR, STAR]
    else if b == QUOTE then [STAR, QUOTE]
    else if b == NEWLINE then [STAR, 110]
    else if b == ESC then [STAR, 101]
    else [b]
  }

  function Escape(v: Bytes): Bytes {
    if v == [] then [] else EscapeByte(v[0]) + Escape(v[1..])
  }

  function PrintQuoted(v: Bytes): Bytes { [QUOTE] + Escape(v) + [QUOTE] }

  /** Every byte string comes back from between its quotes. */
  lemma {:induction false} EscapesUndone(pre: Bytes, v: Bytes, post: Bytes)
    ensures QuotedBody(pre + Escape(v) + [QUOTE] + post, |pre|) == Body(true, v, |pre| + |Escape(v)| + 1)
    decreases |v|
  {
    hide EscapeByte, QuotedBody;
    var buf := pre + Escape(v) + [QUOTE] + post;
    if v == [] {
      QuoteEnds(buf, |pre|);
    } else {
      EscapesUndone(pre + EscapeByte(v[0]), v[1..], post);
      EscapedFirst(pre, EscapeByte(v[0]), Escape(v[1..]), [QUOTE] + post);
      assert buf == pre + Escape(v) + ([QUOTE] + post);
      assert buf == (pre + EscapeByte(v[0])) + Escape(v[1..]) + [QUOTE] + post;
      OneEscapeUndone(buf, |pre|, v[0]);
      assert v == [v[0]] + v[1..];
    }
  }

  lemma {:induction false} QuoteEnds(buf: Bytes, p: nat)
    requires p < |buf| && buf[p] == QUOTE
    ensures QuotedBody(buf, p) == Body(true, [], p + 1)
  {
  }

  lemma EscapedFirst(pre: Bytes, first: Bytes, more: Bytes, post: Bytes)
    ensures var buf := pre + (first + more) + post;
            buf == pre + first + more + post && buf[|pre|..|pre| + |first|] == first
  {
  }

  lemma OneEscapeUndone(buf: Bytes, p: nat, b: byte)
    requires p + |EscapeByte(b)| <= |buf| && buf[p..p + |EscapeByte(b)|] == EscapeByte(b)
    ensures var rest := QuotedBody(buf, p + |EscapeByte(b)|);
            QuotedBody(buf, p) == rest.(text := [b] + rest.text)
  {
    var n := |EscapeByte(b)|;
    assert buf[p] == buf[p..p + n][0] == EscapeByte(b)[0];
    if n == 2 {
      assert buf[p + 1] == buf[p..p + n][1] == EscapeByte(b)[1];
    }
  }

  /** One byte inside quotes, its letter a capital or not. */
  function EscapeCased(b: byte, capital: bool): Bytes {
    if capital && b == NEWLINE then [STAR, 78]
    else if capital && b == ESC then [STAR, 69]
    else EscapeByte(b)
  }

  function EscapeAllCased(v: Bytes, capitals: seq<bool>): Bytes
    requires |capitals| == |v|
  {
    if v == [] then [] else EscapeCased(v[0], capitals[0]) + EscapeAllCased(v[1..], capitals[1..])
  }

  /** `*N` and `*E` are read as `*n` and `*e` are, wherever they stand. */
  lemma {:induction false} CapitalsUndone(pre: Bytes, v: Bytes, capitals: seq<bool>, post: Bytes)
    requires |capitals| == |v|
    ensures var text := EscapeAllCased(v, capitals);
            QuotedBody(pre + text + [QUOTE] + post, |pre|) == Body(true, v, |pre| + |text| + 1)
    decreases |v|
  {
    hide EscapeCased, QuotedBody;
    var text := EscapeAllCased(v, capitals);
    var buf := pre + text + [QUOTE] + post;
    if v == [] {
      QuoteEnds(buf, |pre|);
    } else {
      var first, more := EscapeCased(v[0], capitals[0]), EscapeAllCased(v[1..], capitals[1..]);
      CapitalsUndone(pre + first, v[1..], capitals[1..], post);
      EscapedFirst(pre, first, more, [QUOTE] + post);
      assert buf == pre + text + ([QUOTE] + post);
      assert buf == (pre + first) + more + [QUOTE] + post;
      OneCasedUndone(buf, |pre|, v[0], capitals[0]);
      assert v == [v[0]] + v[1..];
    }
  }

  lemma OneCasedUndone(buf: Bytes, p: nat, b: byte, capital: bool)
    requires var text := EscapeCased(b, capital); p + |text| <= |buf| && buf[p..p + |text|] == text
    ensures var rest := QuotedBody(buf, p + |EscapeCased(b, capital)|);
            QuotedBody(buf, p) == rest.(text := [b] + rest.text)
  {
    var text := EscapeCased(b, capital);
    assert buf[p] == buf[p..p + |text|][0] == text[0];
    if |text| == 2 {
      assert buf[p + 1] == buf[p..p + |text|][1] == text[1];
    }
  }

  /** A star before any other byte stands for itself. */
  lemma LoneStar(buf: Bytes, p: nat)
    requires p + 1 < |buf| && buf[p] == STAR
    requires buf[p + 1] !in [QUOTE, STAR, 78, 110, 69, 101]
    ensures var rest := QuotedBody(buf, p + 1);
            QuotedBody(buf, p) == rest.(text := [STAR] + rest.text)
  {
    var letters := [QUOTE, STAR, 78, 110, 69, 101];
    assert letters[0] in letters && letters[1] in letters && letters[2] in letters;
    assert letters[3] in letters && letters[4] in letters && letters[5] in letters;
  }

  function PrintNat(n: nat): Bytes {
    if n < 10 then [48 + n] else PrintNat(n / 10) + [48 + n % 10]
  }

  function PrintNumber(n: int): Bytes {
    if n < 0 then [MINUS] + PrintNat(-n) else PrintNat(n)
  }

  lemma {:induction false} NatReadsBack(n: nat)
    ensures PrintNat(n) != [] && AllDigits(PrintNat(n)) && DigitsValue(PrintNat(n)) == n
  {
    if n < 10 {
      assert PrintNat(n)[..0] == [];
    } else {
      NatReadsBack(n / 10);
      assert PrintNat(n)[..|PrintNat(n)| - 1] == PrintNat(n / 10);
    }
  }

  /** Every 32-bit number is read back from its decimal form. */
  lemma NumberReadsBack(n: int)
    requires -0x8000_0000 <= n <= 0x7fff_ffff
    ensures ParseNumber(PrintNumber(n)) == Some(n)
  {
    hide PrintNat;
    var digits := if n < 0 then PrintNat(-n) else PrintNat(n);
    NatReadsBack(if n < 0 then -n else n);
    assert digits[0] in digits;
    if n < 0 {
      assert PrintNumber(n)[1..] == digits;
    }
  }

  lemma NumberIsWord(n: int)
    ensures PrintNumber(n) != [] && PrintNumber(n)[0] != QUOTE
    ensures forall b <- PrintNumber(n) :: !IsDelimiter(b)
  {
    hide PrintNat;
    var digits := if n < 0 then PrintNat(-n) else PrintNat(n);
    NatReadsBack(if n < 0 then -n else n);
    assert digits[0] in digits;
    forall b | b in PrintNumber(n) ensures !IsDelimiter(b) {
      if b != MINUS { assert b in digits; }
    }
  }

  // --- Items at a known place in the line ---

  /** A word that an unquoted item can spell. */
  ghost predicate IsWord(word: Bytes) {
    word != [] && word[0] != QUOTE && forall b <- word :: !IsDelimiter(b)
  }

  ghost predicate Separated(post: Bytes) { post == [] || IsDelimiter(post[0]) }

  lemma WordRead(pre: Bytes, word: Bytes, post: Bytes)
    requires IsWord(word) && Separated(post)
    ensures ItemAt(pre + word + post, |pre|) == Item(Unquoted, word, |pre|, |pre| + |word|)
  {
    var buf := pre + word + post;
    var end := |pre| + |word|;
    assert forall i :: |pre| <= i < end ==> buf[i] == word[i - |pre|] && buf[i] in word;
    assert buf[|pre|] == word[0];
    assert end < |buf| ==> buf[end] == post[0];
    assert WordEnd(buf, |pre|) == end;
    assert buf[|pre|..end] == word;
  }

  /** Blanks in front of an item are skipped. */
  lemma BlankSkipped(pre: Bytes, rest: Bytes)
    ensures ItemAt(pre + [SPACE] + rest, |pre|) == ItemAt(pre + [SPACE] + rest, |pre + [SPACE]|)
  {
    hide WordEnd, QuotedBody;
    assert (pre + [SPACE] + rest)[|pre|] == SPACE;
  }

  /** ` NAME` at the end of a word. */
  lemma NameRead(pre: Bytes, name: Bytes, post: Bytes)
    requires IsWord(name) && Separated(post)
    ensures ItemAt(pre + ([SPACE] + name) + post, |pre|) == Item(Unquoted, name, |pre| + 1, |pre| + 1 + |name|)
  {
    hide ItemAt;
    var buf := pre + ([SPACE] + name) + post;
    assert buf == pre + [SPACE] + (name + post) == (pre + [SPACE]) + name + post;
    BlankSkipped(pre, name + post);
    WordRead(pre + [SPACE], name, post);
  }

  lemma EqualRead(pre: Bytes, rest: Bytes)
    ensures ItemAt(pre + [EQUALS] + rest, |pre|) == Item(Equal, [], |pre|, |pre| + 1)
  {
    hide WordEnd, QuotedBody;
    assert (pre + [EQUALS] + rest)[|pre|] == EQUALS;
  }

  /** `="text"` is read as one value. */
  lemma QuotedValueRead(pre: Bytes, v: Bytes, post: Bytes)
    ensures var text := [EQUALS] + PrintQuoted(v);
            ValueAt(pre + text + post, |pre|) == Item(Quoted, v, |pre| + 1, |pre| + |text|)
  {
    hide WordEnd;
    var buf := pre + ([EQUALS] + PrintQuoted(v)) + post;
    var open := pre + [EQUALS] + [QUOTE];
    assert buf == pre + [EQUALS] + (PrintQuoted(v) + post);
    EqualRead(pre, PrintQuoted(v) + post);
    assert buf == open + Escape(v) + [QUOTE] + post;
    EscapesUndone(open, v, post);
    assert buf[|pre| + 1] == QUOTE;
  }

  /** `=word` is read as one value. */
  lemma WordValueRead(pre: Bytes, word: Bytes, post: Bytes)
    requires IsWord(word) && Separated(post)
    ensures var text := [EQUALS] + word;
            ValueAt(pre + text + post, |pre|) == Item(Unquoted, word, |pre| + 1, |pre| + |text|)
  {
    hide ItemAt;
    var buf := pre + ([EQUALS] + word) + post;
    assert buf == pre + [EQUALS] + (word + post) == (pre + [EQUALS]) + word + post;
    EqualRead(pre, word + post);
    WordRead(pre + [EQUALS], word, post);
  }
}
