/** The lexer as it runs: an object over the input with a cursor, the indent
    stack, the bracket depth and a queue of tokens not handed out yet
    (lexer/lexer.go). */
module LexerPass {
  import opened Wrappers
  import opened StringLiteral
  import opened Layout

  class Lexer {
    const runes: seq<Rune>
    const alphabet: Alphabet
    var offset: nat
    var started: bool
    var done: bool
    var indents: seq<nat>
    var parens: nat
    var atLineStart: bool
    var lineHasTok: bool
    var pending: seq<Token>

    predicate Valid()
      reads this
    {
      offset <= |runes| && Stack(indents)
    }

    function Rest(): seq<Rune>
      reads this
      requires Valid()
    {
      runes[offset..]
    }

    ghost function Model(): (st: State)
      reads this
      requires Valid()
      ensures st.indents == indents && st.done == done
    {
      State(Rest(), started, done, indents, parens, atLineStart, lineHasTok)
    }

    /** The tokens still to be handed out. */
    ghost function Stream(): seq<Token>
      reads this
      requires Valid()
    {
      pending + Tokens(alphabet, Model())
    }

    constructor (runes: seq<Rune>, alphabet: Alphabet)
      ensures Valid() && this.runes == runes && this.alphabet == alphabet
      ensures Stream() == Tokens(alphabet, Initial(runes))
    {
      this.runes, this.alphabet := runes, alphabet;
      offset, started, done, indents, parens, atLineStart, lineHasTok, pending := 0, false, false, [0], 0, true,
          false, [];
      new;
      hide Tokens;
      assert Model() == Initial(runes);
    }

    predicate Cur(c: Rune)
      reads this
      requires Valid()
    {
      offset < |runes| && runes[offset] == c
    }

    // Strings.

    method DecodeHexDigits(n: nat, asByte: bool) returns (text: seq<Rune>, bad: bool)
      requires Valid()
      modifies this`offset
      ensures Valid() && Scan(text, Rest(), bad) == DecodeHex(old(Rest()), n, asByte)
    {
      if offset + n > |runes| {
        return [], true;
      }
      var digits := runes[offset..offset + n];
      assert Rest()[..n] == digits;
      var v := ParseHex(digits);
      if v.None? {
        return [], true;
      }
      offset := offset + n;
      if asByte {
        return [v.value % 256], false;
      }
      return [WriteRune(v.value)], false;
    }

    method DecodeEscapeSequence(mode: Mode) returns (text: seq<Rune>, bad: bool)
      requires Valid()
      modifies this`offset
      ensures Valid() && Scan(text, Rest(), bad) == DecodeEscape(old(Rest()), mode)
    {
      if offset == |runes| {
        return [], true;
      }
      var c := runes[offset];
      offset := offset + 1;
      assert old(Rest())[0] == c && old(Rest())[1..] == Rest();
      var simple := SimpleEscape(c);
      if simple.Some? {
        return [simple.value], false;
      }
      if c == 120 {
        text, bad := DecodeHexDigits(2, mode.bytes);
      } else if c == 117 && !mode.bytes {
        text, bad := DecodeHexDigits(4, false);
      } else if c == 85 && !mode.bytes {
        text, bad := DecodeHexDigits(8, false);
      } else {
        return [BACKSLASH, c], false;
      }
    }

    method ConsumeNewline()
      requires Valid() && offset < |runes|
      modifies this`offset
      ensures Valid() && Rest() == AfterNewline(old(Rest()))
    {
      if Cur(RETURN) {
        offset := offset + 1;
        if Cur(NEWLINE) {
          offset := offset + 1;
        }
      } else {
        offset := offset + 1;
      }
    }

    predicate Three(q: Rune)
      reads this
      requires Valid()
    {
      offset + 3 <= |runes| && runes[offset] == q && runes[offset + 1] == q && runes[offset + 2] == q
    }

    /** The backslash at the cursor and what belongs to it. */
    method ReadBackslash(mode: Mode, ghost q: Rune, ghost triple: bool, text0: seq<Rune>, bad0: bool)
      returns (text: seq<Rune>, bad: bool)
      requires Valid() && offset < |runes| && runes[offset] == BACKSLASH && q != BACKSLASH
      modifies this`offset
      ensures Valid() && offset > old(offset)
      ensures ScanBody(mode, q, triple, Rest(), text, bad) == ScanBody(mode, q, triple, old(Rest()), text0, bad0)
    {
      hide DecodeEscape, AfterNewline, Stack, Direct;
      ghost var src := Rest();
      assert src[0] == BACKSLASH;
      offset := offset + 1;
      assert Rest() == src[1..];
      if !mode.raw {
        var more, worse := DecodeEscapeSequence(mode);
        return text0 + more, bad0 || worse;
      }
      if offset == |runes| {
        return text0 + [BACKSLASH], bad0;
      }
      var c := runes[offset];
      assert src[1] == c;
      offset := offset + 1;
      assert Rest() == src[2..];
      return text0 + [BACKSLASH, c], bad0 || Direct(c, mode);
    }

    /** Reads a literal whose opening quote is at the cursor. */
    method ReadString(mode: Mode) returns (text: seq<Rune>, bad: bool)
      requires Valid() && offset < |runes| && IsQuote(runes[offset])
      modifies this`offset
      ensures Valid() && Scan(text, Rest(), bad) == ScanString(mode, old(Rest()))
    {
      ghost var start := Rest();
      ghost var goal := ScanString(mode, start);
      bad := mode.unicode;
      text := [];
      var q := runes[offset];
      var triple := Three(q);
      offset := offset + if triple then 3 else 1;
      assert Rest() == start[if triple then 3 else 1..];
      hide DecodeEscape, AfterNewline, Stack, ScanString, Direct, IsLineEnd;
      while true
        invariant Valid() && ScanBody(mode, q, triple, Rest(), text, bad) == goal
        decreases |runes| - offset
      {
        ghost var src := Rest();
        if offset == |runes| {
          bad := true;
          break;
        }
        var c := runes[offset];
        assert src[0] == c;
        if !triple && IsLineEnd(c) {
          bad := true;
          break;
        }
        if c == q {
          if !triple {
            offset := offset + 1;
            assert Rest() == src[1..];
            break;
          }
          if Three(q) {
            offset := offset + 3;
            assert Rest() == src[3..];
            break;
          }
          text := text + [c];
          offset := offset + 1;
          assert Rest() == src[1..];
          continue;
        }
        if IsLineEnd(c) {
          text := text + [NEWLINE];
          ConsumeNewline();
          continue;
        }
        if c == BACKSLASH {
          text, bad := ReadBackslash(mode, q, triple, text, bad);
          continue;
        }
        bad := bad || Direct(c, mode);
        text := text + [c];
        offset := offset + 1;
        assert Rest() == src[1..];
      }
    }

    /** The letters of a word. */
    method ScanName() returns (word: seq<Rune>)
      requires Valid()
      modifies this`offset
      ensures Valid() && Rest() == AfterName(alphabet, old(Rest()))
      ensures word == old(Rest())[..|old(Rest())| - |Rest()|]
    {
      hide Stack, NamePart;
      var start := offset;
      ghost var src := Rest();
      ghost var goal := AfterName(alphabet, src);
      while offset < |runes| && NamePart(alphabet, runes[offset])
        invariant start <= offset <= |runes| && Stack(indents) && AfterName(alphabet, Rest()) == goal
        decreases |runes| - offset
      {
        NameGoesOn(alphabet, Rest());
        assert Rest()[1..] == runes[offset + 1..];
        offset := offset + 1;
      }
      NameStops(alphabet, Rest());
      word := runes[start..offset];
      assert src[..offset - start] == word;
    }

    /** A name, or a string literal it is the prefix of. */
    method ScanNameOrString()
      requires Valid() && offset < |runes| && NameStart(alphabet, runes[offset])
      modifies this`offset, this`pending
      ensures Valid() && Rest() == Word(alphabet, old(Rest())).0
      ensures pending == old(pending) + [Word(alphabet, old(Rest())).1]
    {
      hide ScanString, ClassifyPrefix, Stack, AfterName;
      var word := ScanName();
      var prefix := None;
      if offset < |runes| && IsQuote(runes[offset]) && |word| <= 2 {
        assert Rest()[0] == runes[offset];
        prefix := ClassifyPrefix(word, PLAIN);
      }
      assert prefix == PrefixOf(word, Rest());
      if prefix.Some? {
        var text, bad := ReadString(prefix.value);
        Add(Str(prefix.value, text, bad));
      } else {
        Add(Plain);
      }
    }

    // Layout.

    method Add(t: Token)
      modifies this`pending
      ensures pending == old(pending) + [t]
    {
      pending := pending + [t];
    }

    /** Pops the stack down to `width`, with a DEDENT for each entry. */
    method PopIndents(width: nat)
      requires Valid()
      modifies this`indents, this`pending
      ensures Valid() && indents == PopTo(old(indents), width)
      ensures pending == old(pending) + Dedents(|old(indents)| - |indents|)
    {
      while |indents| > 1 && width < indents[|indents| - 1]
        invariant Valid() && |indents| <= |old(indents)|
        invariant PopTo(indents, width) == PopTo(old(indents), width)
        invariant pending == old(pending) + Dedents(|old(indents)| - |indents|)
        decreases |indents|
      {
        indents := indents[..|indents| - 1];
        Add(Dedent);
      }
    }

    /** Emits what is still owed at the end of input. */
    method FinishInput()
      requires Valid()
      modifies this
      ensures Valid() && (Model(), pending) == (Finish(old(Model())).0, old(pending) + Finish(old(Model())).1)
    {
      ghost var before := pending;
      if lineHasTok {
        Add(Newline);
        lineHasTok := false;
      }
      ghost var owed := pending;
      while |indents| > 1
        invariant Valid() && 1 <= |indents| <= |old(indents)|
        invariant indents == old(indents)[..|indents|]
        invariant pending == owed + Dedents(|old(indents)| - |indents|)
        invariant offset == old(offset) && started == old(started) && done == old(done) && parens == old(parens)
          && atLineStart == old(atLineStart) && !lineHasTok
        decreases |indents|
      {
        indents := indents[..|indents| - 1];
        Add(Dedent);
      }
      Add(End);
      done := true;
      assert pending == before + ((if old(lineHasTok) then [Newline] else []) + Dedents(|old(indents)| - 1) + [End]);
    }

    method SkipComment()
      requires Valid()
      modifies this`offset
      ensures Valid() && Rest() == AfterComment(old(Rest()))
    {
      while offset < |runes| && !IsLineEnd(runes[offset])
        invariant Valid() && AfterComment(Rest()) == AfterComment(old(Rest()))
        decreases |runes| - offset
      {
        assert Rest()[1..] == runes[offset + 1..];
        offset := offset + 1;
      }
    }

    /** Measures the blanks at the start of a line and queues the INDENT or the
        DEDENTs they call for; a blank or comment line has none. */
    method ScanIndent() returns (blank: bool)
      requires Valid() && offset < |runes|
      modifies this`offset, this`indents, this`pending
      ensures Valid()
      ensures var (width, rest) := Measure(old(Rest()), 0);
              && blank == Blank(rest)
              && (if blank then Rest() == AfterBlank(rest) && indents == old(indents) && pending == old(pending)
                  else Rest() == rest && indents == Reindent(old(indents), width).0
                       && pending == old(pending) + Reindent(old(indents), width).1)
    {
      ghost var start := Rest();
      var width: nat := 0;
      while offset < |runes| && (Cur(SPACE) || Cur(FORM_FEED) || Cur(TAB))
        modifies this`offset
        invariant Valid() && Measure(Rest(), width) == Measure(start, 0)
        decreases |runes| - offset
      {
        assert Rest()[1..] == runes[offset + 1..];
        if !Cur(TAB) {
          width := width + 1;
        }
        offset := offset + 1;
      }
      assert Measure(start, 0) == (width, Rest());
      if offset == |runes| || IsLineEnd(runes[offset]) || Cur(HASH) {
        if Cur(HASH) {
          SkipComment();
        }
        if offset < |runes| && IsLineEnd(runes[offset]) {
          ConsumeNewline();
        }
        return true;
      }
      if width > indents[|indents| - 1] {
        indents := indents + [width];
        Add(Indent);
      } else {
        PopIndents(width);
      }
      return false;
    }

    /** Skips a byte order mark, once. */
    method BeginInput()
      requires Valid()
      modifies this`started, this`offset
      ensures Valid() && Model() == Begin(old(Model()))
    {
      hide Stack;
      if !started {
        started := true;
        if Cur(MARK) {
          offset := offset + 1;
        }
      }
    }

    method StartLine()
      requires Valid() && offset < |runes|
      modifies this
      ensures Valid() && Model() == LineStart(old(Model())).0
      ensures pending == old(pending) + LineStart(old(Model())).1
    {
      hide AfterComment, Measure, Reindent, AfterBlank, Stack;
      var blank := ScanIndent();
      if !blank {
        atLineStart := false;
        lineHasTok := false;
      }
    }

    /** One unit of work: zero or more tokens are queued. */
    method StepOnce()
      requires Valid() && !done
      modifies this
      ensures Valid() && Model() == Step(alphabet, old(Model())).0
      ensures pending == old(pending) + Step(alphabet, old(Model())).1
    {
      hide LineStart, Finish, Within, Begin, Stack;
      BeginInput();
      if offset == |runes| {
        FinishInput();
      } else if atLineStart && parens == 0 {
        StartLine();
      } else {
        ScanWithin();
      }
    }

    method ScanWithin()
      requires Valid() && offset < |runes|
      modifies this
      ensures Valid() && Model() == Within(alphabet, old(Model())).0
      ensures pending == old(pending) + Within(alphabet, old(Model())).1
    {
      hide ScanString, OperatorLength, AfterNewline, AfterComment, Word, AfterNumber, Stack;
      ghost var src := Rest();
      var c := runes[offset];
      assert src[0] == c && src[1..] == runes[offset + 1..];
      if c == SPACE || c == FORM_FEED || c == TAB {
        offset := offset + 1;
      } else if c == BACKSLASH {
        offset := offset + 1;
        if offset < |runes| && IsLineEnd(runes[offset]) {
          ConsumeNewline();
        }
      } else if c == HASH {
        SkipComment();
      } else if IsLineEnd(c) {
        ConsumeNewline();
        if parens == 0 {
          if lineHasTok {
            Add(Newline);
          }
          atLineStart := true;
          lineHasTok := false;
        }
      } else {
        ScanToken();
      }
    }

    method ScanToken()
      requires Valid() && offset < |runes|
      requires var c := runes[offset]; !(c in {SPACE, FORM_FEED, TAB, BACKSLASH, HASH} || IsLineEnd(c))
      modifies this
      ensures Valid() && Model() == Within(alphabet, old(Model())).0
      ensures pending == old(pending) + Within(alphabet, old(Model())).1
    {
      hide ScanString, OperatorLength, AfterNumber, Word, Stack;
      var src := Rest();
      var c := runes[offset];
      assert src[0] == c;
      if NameStart(alphabet, c) {
        ScanNameOrString();
      } else if IsDigit(c) || (c == DOT && offset + 1 < |runes| && IsDigit(runes[offset + 1])) {
        offset := |runes| - |AfterNumber(src)|;
        NumberSuffix(src);
        SuffixOf(runes, src, AfterNumber(src));
        Add(Plain);
      } else if IsQuote(c) {
        var text, bad := ReadString(PLAIN);
        Add(Str(PLAIN, text, bad));
      } else {
        var n := OperatorLength(src);
        parens := Brackets(parens, c);
        offset := offset + if n == 0 then 1 else n;
        assert Rest() == src[if n == 0 then 1 else n..];
        if n != 0 {
          Add(Plain);
        }
      }
      lineHasTok := true;
    }
  }

  lemma NameGoesOn(u: Alphabet, src: seq<Rune>)
    requires src != [] && NamePart(u, src[0])
    ensures AfterName(u, src) == AfterName(u, src[1..])
  {
  }

  lemma NameStops(u: Alphabet, src: seq<Rune>)
    requires src == [] || !NamePart(u, src[0])
    ensures AfterName(u, src) == src
  {
  }

  // What is left after a token is a suffix of the input.

  predicate Suffix(r: seq<Rune>, src: seq<Rune>) {
    |r| <= |src| && r == src[|src| - |r|..]
  }

  lemma SuffixTrans(a: seq<Rune>, b: seq<Rune>, c: seq<Rune>)
    requires Suffix(a, b) && Suffix(b, c)
    ensures Suffix(a, c)
  {
  }

  lemma SuffixOf(runes: seq<Rune>, src: seq<Rune>, r: seq<Rune>)
    requires Suffix(src, runes)
    ensures Suffix(r, src) ==> runes[|runes| - |r|..] == r
  {
  }

  lemma {:induction false} DigitsSuffix(src: seq<Rune>, hex: bool)
    ensures Suffix(AfterDigits(src, hex), src)
    decreases src
  {
    if src != [] && (InNumber(src[0]) || (hex && InHexNumber(src[0]))) {
      DigitsSuffix(src[1..], hex);
    }
  }

  lemma ExponentSuffix(src: seq<Rune>)
    ensures Suffix(AfterExponent(src), src)
  {
    if src != [] && (src[0] == 101 || src[0] == 69) {
      var signed := if |src| > 1 && (src[1] == 43 || src[1] == 45) then src[2..] else src[1..];
      DigitsSuffix(signed, false);
      SuffixTrans(AfterDigits(signed, false), signed, src);
    }
  }

  lemma NumberSuffix(src: seq<Rune>)
    requires src != [] && (IsDigit(src[0]) || (src[0] == DOT && |src| > 1 && IsDigit(src[1])))
    ensures Suffix(AfterNumber(src), src)
  {
    hide AfterDigits, AfterExponent;
    if src[0] == 48 && |src| > 1 && RadixMark(src[1]) {
      DigitsSuffix(src[2..], true);
      SuffixTrans(AfterDigits(src[2..], true), src[2..], src);
    } else {
      var whole := AfterDigits(src, false);
      DigitsSuffix(src, false);
      var fraction := if whole != [] && whole[0] == DOT then AfterDigits(whole[1..], false) else whole;
      if whole != [] && whole[0] == DOT {
        DigitsSuffix(whole[1..], false);
        SuffixTrans(fraction, whole[1..], whole);
      }
      SuffixTrans(fraction, whole, src);
      ExponentSuffix(fraction);
      SuffixTrans(AfterExponent(fraction), fraction, src);
      var r := AfterExponent(fraction);
      if r != [] && (r[0] == 106 || r[0] == 74) {
        SuffixTrans(r[1..], r, src);
      }
    }
  }

  /** Hands out the next token, working until there is one. After the end the
      lexer keeps answering End. */
  method NextToken(l: Lexer) returns (t: Token)
    requires l.Valid()
    modifies l
    ensures l.Valid()
    ensures if old(l.Stream()) == [] then t == End && l.Stream() == []
            else t == old(l.Stream())[0] && l.Stream() == old(l.Stream())[1..]
  {
    hide Step, Tokens;
    while |l.pending| == 0 && !l.done
      invariant l.Valid() && l.Stream() == old(l.Stream())
      decreases |l.Model().src|, l.Model().atLineStart, !l.Model().done
    {
      ghost var before := l.Model();
      StepSmaller(l.alphabet, before);
      l.StepOnce();
      TokensStep(l.alphabet, before);
    }
    if |l.pending| == 0 {
      NothingLeft(l.alphabet, l.Model());
      return End;
    }
    t := l.pending[0];
    l.pending := l.pending[1..];
  }

  lemma TokensStep(u: Alphabet, st: State)
    requires st.indents != [] && !st.done
    ensures Tokens(u, st) == Step(u, st).1 + Tokens(u, Step(u, st).0)
  {
  }

  lemma NothingLeft(u: Alphabet, st: State)
    requires st.indents != [] && st.done
    ensures Tokens(u, st) == []
  {
  }

  ghost predicate EndsOnce(toks: seq<Token>) {
    toks != [] && toks[|toks| - 1] == End && forall i :: 0 <= i < |toks| - 1 ==> toks[i] != End
  }

  lemma EndIsLast(toks: seq<Token>, n: nat)
    requires EndsOnce(toks) && n < |toks|
    ensures toks[n] == End <==> n == |toks| - 1
  {
  }

  lemma WholeStream(runes: seq<Rune>, u: Alphabet)
    ensures EndsOnce(Tokens(u, Initial(runes)))
  {
    OneEnd(u, Initial(runes));
  }

  method Drain(l: Lexer) returns (tokens: seq<Token>)
    requires l.Valid() && EndsOnce(l.Stream())
    modifies l
    ensures tokens == old(l.Stream())
  {
    hide Stack, Tokens, Lexer.Model, Lexer.Stream;
    ghost var all := l.Stream();
    tokens := [];
    while true
      invariant l.Valid()
      invariant |tokens| < |all| && tokens == all[..|tokens|] && l.Stream() == all[|tokens|..]
      decreases |all| - |tokens|
    {
      EndIsLast(all, |tokens|);
      var t := NextToken(l);
      tokens := tokens + [t];
      if t == End {
        return;
      }
    }
  }

  /** Every token of the input. */
  method LexAll(runes: seq<Rune>, u: Alphabet) returns (tokens: seq<Token>)
    ensures tokens == Tokens(u, Initial(runes))
  {
    hide Tokens, Initial, Lexer.Stream, Lexer.Model, EndsOnce, Lexer.Valid;
    var l := new Lexer(runes, u);
    WholeStream(runes, u);
    tokens := Drain(l);
  }
}
