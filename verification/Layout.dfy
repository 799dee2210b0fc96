/** The layout of a source text as the lexer finds it (lexer/lexer.go): NEWLINE,
    INDENT and DEDENT tokens from leading spaces, outside brackets only. The
    Python Language Reference, sections 2.1.5 to 2.1.8. Of the other tokens only
    string literals carry what they say. */
module Layout {
  import opened Wrappers
  import opened StringLiteral

  /** A string token has its prefix, its decoded text and whether reading it gave a
      diagnostic. */
  datatype Token = Newline | Indent | Dedent | End | Str(mode: Mode, text: seq<Rune>, bad: bool) | Plain

  predicate IsLayout(t: Token) {
    t.Newline? || t.Indent? || t.Dedent?
  }

  /** `unicode.IsLetter` and `unicode.IsDigit`. */
  datatype Alphabet = Alphabet(letter: Rune -> bool, numeral: Rune -> bool)

  const SPACE: Rune := 32
  const FORM_FEED: Rune := 12
  const HASH: Rune := 35
  const UNDERSCORE: Rune := 95
  const DOT: Rune := 46
  const MARK: Rune := 0xFEFF

  /** What the lexer knows between two steps. */
  datatype State = State(
    src: seq<Rune>,
    started: bool,
    done: bool,
    indents: seq<nat>,
    parens: nat,
    atLineStart: bool,
    lineHasTok: bool)

  function Initial(src: seq<Rune>): State {
    State(src, false, false, [0], 0, true, false)
  }

  // Tokens that are not about layout: only how much they consume.

  predicate IsDigit(c: Rune) {
    48 <= c <= 57
  }

  predicate NameStart(u: Alphabet, c: Rune) {
    c == UNDERSCORE || u.letter(c)
  }

  predicate NamePart(u: Alphabet, c: Rune) {
    c == UNDERSCORE || u.letter(c) || u.numeral(c)
  }

  function AfterName(u: Alphabet, src: seq<Rune>): (r: seq<Rune>)
    ensures |r| <= |src|
    decreases src
  {
    if src != [] && NamePart(u, src[0]) then AfterName(u, src[1..]) else src
  }

  /** Which prefix letters a word may be: at most one of each, no `f` with `b`, and `u` alone. */
  function ClassifyPrefix(word: seq<Rune>, mode: Mode): Option<Mode>
    decreases word
  {
    if word == [] then
      if (mode.formatted && mode.bytes) || (mode.unicode && (mode.raw || mode.formatted || mode.bytes))
      then None
      else Some(mode)
    else
      var c := word[0];
      if (c == 114 || c == 82) && !mode.raw then ClassifyPrefix(word[1..], mode.(raw := true))
      else if (c == 102 || c == 70) && !mode.formatted then ClassifyPrefix(word[1..], mode.(formatted := true))
      else if (c == 98 || c == 66) && !mode.bytes then ClassifyPrefix(word[1..], mode.(bytes := true))
      else if (c == 117 || c == 85) && !mode.unicode then ClassifyPrefix(word[1..], mode.(unicode := true))
      else None
  }

  /** The prefix a word is when a quote follows it. */
  function PrefixOf(word: seq<Rune>, rest: seq<Rune>): Option<Mode> {
    if rest != [] && IsQuote(rest[0]) && |word| <= 2 then ClassifyPrefix(word, PLAIN) else None
  }

  function StringToken(mode: Mode, s: Scan): Token {
    Str(mode, s.text, s.bad)
  }

  /** A name, or a string literal whose prefix it is: what follows it, and its token. */
  function Word(u: Alphabet, src: seq<Rune>): (r: (seq<Rune>, Token))
    requires src != [] && NameStart(u, src[0])
    ensures |r.0| < |src| && (r.1.Plain? || r.1.Str?)
  {
    var rest := AfterName(u, src);
    var prefix := PrefixOf(src[..|src| - |rest|], rest);
    if prefix.None? then (rest, Plain)
    else
      var s := ScanString(prefix.value, rest);
      (s.rest, StringToken(prefix.value, s))
  }

  predicate InNumber(c: Rune) {
    IsDigit(c) || c == UNDERSCORE
  }

  predicate InHexNumber(c: Rune) {
    InNumber(c) || 97 <= c <= 102 || 65 <= c <= 70
  }

  function AfterDigits(src: seq<Rune>, hex: bool): (r: seq<Rune>)
    ensures |r| <= |src| && (src != [] && IsDigit(src[0]) ==> |r| < |src|)
    decreases src
  {
    if src != [] && (InNumber(src[0]) || (hex && InHexNumber(src[0]))) then AfterDigits(src[1..], hex) else src
  }

  predicate RadixMark(c: Rune) {
    c in {120, 88, 111, 79, 98, 66}
  }

  function AfterExponent(src: seq<Rune>): (r: seq<Rune>)
    ensures |r| <= |src|
  {
    if src != [] && (src[0] == 101 || src[0] == 69) then
      var signed := if |src| > 1 && (src[1] == 43 || src[1] == 45) then src[2..] else src[1..];
      if signed != [] && IsDigit(signed[0]) then AfterDigits(signed, false) else src
    else src
  }

  function AfterNumber(src: seq<Rune>): (r: seq<Rune>)
    requires src != [] && (IsDigit(src[0]) || (src[0] == DOT && |src| > 1 && IsDigit(src[1])))
    ensures |r| < |src|
  {
    if src[0] == 48 && |src| > 1 && RadixMark(src[1]) then AfterDigits(src[2..], true)
    else
      var whole := AfterDigits(src, false);
      var fraction := if whole != [] && whole[0] == DOT then AfterDigits(whole[1..], false) else whole;
      var r := AfterExponent(fraction);
      if r != [] && (r[0] == 106 || r[0] == 74) then r[1..] else r
  }

  predicate Next(src: seq<Rune>, k: nat, c: Rune) {
    k < |src| && src[k] == c
  }

  /** The length of the operator or delimiter at the front, zero if there is none:
      the longest that fits. */
  function OperatorLength(src: seq<Rune>): (n: nat)
    requires src != []
    ensures n <= |src|
  {
    var c := src[0];
    var equals := Next(src, 1, 61);
    if c == 42 || c == 47 || c == 60 || c == 62 then      // * / < >
      if Next(src, 1, c) then (if Next(src, 2, 61) then 3 else 2) else if equals then 2 else 1
    else if c == 45 then (if equals || Next(src, 1, 62) then 2 else 1)      // -
    else if c in {43, 37, 38, 124, 94, 61, 58} then (if equals then 2 else 1)      // + % & | ^ = :
    else if c == 33 then (if equals then 2 else 0)      // !
    else if c == DOT then (if Next(src, 1, DOT) && Next(src, 2, DOT) then 3 else 1)
    else if c in {126, 64, 44, 59, 40, 41, 91, 93, 123, 125} then 1      // ~ @ , ; ( ) [ ] { }
    else 0
  }

  function Brackets(parens: nat, c: Rune): nat {
    if c in {40, 91, 123} then parens + 1
    else if c in {41, 93, 125} && parens > 0 then parens - 1
    else parens
  }

  function AfterComment(src: seq<Rune>): (r: seq<Rune>)
    ensures |r| <= |src| && (src != [] && !IsLineEnd(src[0]) ==> |r| < |src|)
    decreases src
  {
    if src == [] || IsLineEnd(src[0]) then src else AfterComment(src[1..])
  }

  // Layout.

  /** The width of the leading blanks, tabs not counting, and what follows them. */
  function Measure(src: seq<Rune>, width: nat): (r: (nat, seq<Rune>))
    ensures |r.1| <= |src|
    decreases src
  {
    if src != [] && (src[0] == SPACE || src[0] == FORM_FEED) then Measure(src[1..], width + 1)
    else if src != [] && src[0] == TAB then Measure(src[1..], width)
    else (width, src)
  }

  predicate Blank(rest: seq<Rune>) {
    rest == [] || IsLineEnd(rest[0]) || rest[0] == HASH
  }

  function AfterBlank(rest: seq<Rune>): (r: seq<Rune>)
    requires Blank(rest)
    ensures |r| <= |rest| && (rest != [] ==> |r| < |rest|)
  {
    var r := if rest != [] && rest[0] == HASH then AfterComment(rest) else rest;
    if r != [] && IsLineEnd(r[0]) then AfterNewline(r) else r
  }

  predicate Stack(indents: seq<nat>) {
    indents != [] && indents[0] == 0 && forall i, j :: 0 <= i < j < |indents| ==> indents[i] < indents[j]
  }

  function Top(indents: seq<nat>): nat
    requires indents != []
  {
    indents[|indents| - 1]
  }

  function PopTo(indents: seq<nat>, width: nat): (r: seq<nat>)
    requires indents != []
    ensures r != [] && r <= indents && (Stack(indents) ==> Stack(r) && Top(r) <= width)
    decreases indents
  {
    if |indents| > 1 && width < Top(indents) then PopTo(indents[..|indents| - 1], width) else indents
  }

  function Dedents(n: nat): (r: seq<Token>)
    ensures |r| == n && forall i :: 0 <= i < n ==> r[i] == Dedent
  {
    seq(n, _ => Dedent)
  }

  /** The stack and the tokens of a line that starts at column `width`. */
  function Reindent(indents: seq<nat>, width: nat): (r: (seq<nat>, seq<Token>))
    requires indents != []
    ensures r.0 != []
  {
    if width > Top(indents) then (indents + [width], [Indent])
    else
      var kept := PopTo(indents, width);
      (kept, Dedents(|indents| - |kept|))
  }

  function Finish(st: State): (r: (State, seq<Token>))
    requires st.indents != []
    ensures r.0.indents != [] && r.0.done
  {
    (st.(indents := st.indents[..1], lineHasTok := false, done := true),
     (if st.lineHasTok then [Newline] else []) + Dedents(|st.indents| - 1) + [End])
  }

  function LineStart(st: State): (r: (State, seq<Token>))
    requires st.indents != []
    ensures r.0.indents != []
  {
    var (width, rest) := Measure(st.src, 0);
    if Blank(rest) then (st.(src := AfterBlank(rest)), [])
    else
      var (indents, toks) := Reindent(st.indents, width);
      (st.(src := rest, indents := indents, atLineStart := false, lineHasTok := false), toks)
  }

  function Consume(st: State, rest: seq<Rune>): State {
    st.(src := rest, lineHasTok := true)
  }

  /** One scanner step inside a line. */
  function Within(u: Alphabet, st: State): (r: (State, seq<Token>))
    requires st.src != [] && st.indents != []
    ensures r.0.indents != []
  {
    var c := st.src[0];
    if c == SPACE || c == FORM_FEED || c == TAB then (st.(src := st.src[1..]), [])
    else if c == BACKSLASH then
      (st.(src := if |st.src| > 1 && IsLineEnd(st.src[1]) then AfterNewline(st.src[1..]) else st.src[1..]), [])
    else if c == HASH then (st.(src := AfterComment(st.src)), [])
    else if IsLineEnd(c) then
      if st.parens == 0
      then (st.(src := AfterNewline(st.src), atLineStart := true, lineHasTok := false),
            if st.lineHasTok then [Newline] else [])
      else (st.(src := AfterNewline(st.src)), [])
    else if NameStart(u, c) then (Consume(st, Word(u, st.src).0), [Word(u, st.src).1])
    else if IsDigit(c) || (c == DOT && |st.src| > 1 && IsDigit(st.src[1])) then
      (Consume(st, AfterNumber(st.src)), [Plain])
    else if IsQuote(c) then
      (Consume(st, ScanString(PLAIN, st.src).rest), [StringToken(PLAIN, ScanString(PLAIN, st.src))])
    else
      var n := OperatorLength(st.src);
      (Consume(st, st.src[if n == 0 then 1 else n..]).(parens := Brackets(st.parens, c)),
       if n == 0 then [] else [Plain])
  }

  function Begin(st: State): State {
    if !st.started && st.src != [] && st.src[0] == MARK
    then st.(started := true, src := st.src[1..])
    else st.(started := true)
  }

  function Step(u: Alphabet, st: State): (r: (State, seq<Token>))
    requires st.indents != []
    ensures r.0.indents != []
  {
    var st1 := Begin(st);
    if st1.src == [] then Finish(st1)
    else if st1.atLineStart && st1.parens == 0 then LineStart(st1)
    else Within(u, st1)
  }

  /** Every step consumes input, or leaves the start of a line, or ends. */
  lemma StepProgress(u: Alphabet, st: State)
    requires st.indents != []
    ensures var st' := Step(u, st).0;
            st'.done || |st'.src| < |st.src| || (|st'.src| == |st.src| && st.atLineStart && !st'.atLineStart)
  {
    hide Within, Reindent;
    var st1 := Begin(st);
    if st1.src != [] && !(st1.atLineStart && st1.parens == 0) {
      WithinShrinks(u, st1);
    }
  }

  lemma WithinShrinks(u: Alphabet, st: State)
    requires st.src != [] && st.indents != []
    ensures |Within(u, st).0.src| < |st.src|
  {
    hide Word, AfterNumber, ScanString, OperatorLength, AfterNewline, Brackets, NameStart, IsDigit, IsQuote,
         ClassifyPrefix;
  }

  /** The whole token stream. */
  function Tokens(u: Alphabet, st: State): seq<Token>
    requires st.indents != []
    decreases |st.src|, if st.atLineStart then 1 else 0, if st.done then 0 else 1
  {
    if st.done then []
    else
      StepProgress(u, st);
      var (st', toks) := Step(u, st);
      toks + Tokens(u, st')
  }

  lemma StepSmaller(u: Alphabet, st: State)
    requires st.indents != [] && !st.done
    ensures var st' := Step(u, st).0;
            || |st'.src| < |st.src|
            || (|st'.src| == |st.src|
                && ((st.atLineStart && !st'.atLineStart) || (st.atLineStart == st'.atLineStart && st'.done)))
  {
    StepProgress(u, st);
    hide Within, LineStart;
    if Step(u, st).0.done {
      DoneFlat(u, st);
    }
  }

  // The stack.

  lemma StepKeepsStack(u: Alphabet, st: State)
    requires Stack(st.indents)
    ensures Stack(Step(u, st).0.indents)
  {
    hide PopTo;
    hide Word, AfterNumber, ScanString, OperatorLength, AfterComment, AfterNewline, Brackets, NameStart, IsDigit,
         IsQuote, ClassifyPrefix;
  }

  function Count(toks: seq<Token>, t: Token): nat
    decreases toks
  {
    if toks == [] then 0 else (if toks[0] == t then 1 else 0) + Count(toks[1..], t)
  }

  lemma {:induction false} CountConcat(a: seq<Token>, b: seq<Token>, t: Token)
    ensures Count(a + b, t) == Count(a, t) + Count(b, t)
    decreases a
  {
    if a == [] {
      assert a + b == b;
    } else {
      assert (a + b)[1..] == a[1..] + b;
      CountConcat(a[1..], b, t);
    }
  }

  /** Opened and not yet closed. */
  function Surplus(toks: seq<Token>): int {
    Count(toks, Indent) - Count(toks, Dedent)
  }

  lemma SurplusConcat(a: seq<Token>, b: seq<Token>)
    ensures Surplus(a + b) == Surplus(a) + Surplus(b)
  {
    CountConcat(a, b, Indent);
    CountConcat(a, b, Dedent);
  }

  lemma {:induction false} SurplusDedents(n: nat)
    ensures Surplus(Dedents(n)) + n == 0
    decreases n
  {
    if n > 0 {
      assert Dedents(n)[1..] == Dedents(n - 1);
      SurplusDedents(n - 1);
    }
  }

  lemma SurplusOne(t: Token)
    ensures Surplus([t]) == if t == Indent then 1 else if t == Dedent then -1 else 0
    ensures Surplus([]) == 0
  {
    assert Count([t][1..], Indent) == 0 && Count([t][1..], Dedent) == 0;
  }

  /** The tokens of a step change the surplus as they change the height of the stack. */
  lemma StepSurplus(u: Alphabet, st: State)
    requires Stack(st.indents)
    ensures Surplus(Step(u, st).1) == |Step(u, st).0.indents| - |st.indents|
  {
    hide Within;
    var st1 := Begin(st);
    var (st', toks) := Step(u, st);
    SurplusOne(Newline);
    SurplusOne(Indent);
    SurplusOne(End);
    if st1.src == [] {
      var pre := if st.lineHasTok then [Newline] else [];
      SurplusDedents(|st.indents| - 1);
      SurplusConcat(pre, Dedents(|st.indents| - 1));
      SurplusConcat(pre + Dedents(|st.indents| - 1), [End]);
    } else if st1.atLineStart && st1.parens == 0 {
      var (width, rest) := Measure(st1.src, 0);
      if !Blank(rest) && width <= Top(st.indents) {
        SurplusDedents(|st.indents| - |PopTo(st.indents, width)|);
      }
    } else {
      WithinSurplus(u, st1);
    }
  }

  /** A scanner step inside a line makes one token at most, which opens and closes
      nothing. */
  lemma WithinTokens(u: Alphabet, st: State)
    requires st.src != [] && st.indents != []
    ensures |Within(u, st).1| <= 1 && Within(u, st).0.indents == st.indents
    ensures forall t :: t in Within(u, st).1 ==> t.Newline? || t.Str? || t.Plain?
  {
    hide Word, AfterNumber, ScanString, OperatorLength, AfterNewline, AfterComment, Brackets, IsQuote;
  }

  lemma WithinSurplus(u: Alphabet, st: State)
    requires st.src != [] && st.indents != []
    ensures Surplus(Within(u, st).1) == 0 && Within(u, st).0.indents == st.indents
  {
    hide Within;
    WithinTokens(u, st);
    var toks := Within(u, st).1;
    SurplusOne(Newline);
    if toks != [] {
      assert toks[0] in toks && toks == [toks[0]];
      SurplusOne(toks[0]);
    }
  }

  /** No prefix of a step's tokens closes more than the stack holds. */
  lemma StepPrefix(u: Alphabet, st: State, k: nat)
    requires Stack(st.indents) && k <= |Step(u, st).1|
    ensures |st.indents| - 1 + Surplus(Step(u, st).1[..k]) >= 0
  {
    hide Within;
    var toks := Step(u, st).1;
    var st1 := Begin(st);
    if st1.src == [] {
      FinishPrefix(st1, k);
    } else if st1.atLineStart && st1.parens == 0 {
      var (width, rest) := Measure(st1.src, 0);
      SurplusOne(Indent);
      if !Blank(rest) && width <= Top(st.indents) {
        assert toks[..k] == Dedents(k);
        SurplusDedents(k);
      } else {
        assert toks[..k] == [] || toks[..k] == [Indent];
      }
    } else {
      WithinPrefix(u, st1, k);
    }
  }

  lemma FinishPrefix(st: State, k: nat)
    requires st.indents != [] && k <= |Finish(st).1|
    ensures |st.indents| - 1 + Surplus(Finish(st).1[..k]) >= 0
  {
    var n := |st.indents| - 1;
    var toks := Finish(st).1;
    SurplusOne(Newline);
    SurplusOne(End);
    var pre := if st.lineHasTok then [Newline] else [];
    if k <= |pre| {
      assert toks[..k] == pre[..k];
      assert pre[..k] == [] || pre[..k] == [Newline];
    } else if k <= |pre| + n {
      assert toks[..k] == pre + Dedents(k - |pre|);
      SurplusDedents(k - |pre|);
      SurplusConcat(pre, Dedents(k - |pre|));
    } else {
      assert toks[..k] == pre + Dedents(n) + [End];
      SurplusDedents(n);
      SurplusConcat(pre, Dedents(n));
      SurplusConcat(pre + Dedents(n), [End]);
    }
  }

  lemma WithinPrefix(u: Alphabet, st: State, k: nat)
    requires st.src != [] && st.indents != [] && k <= |Within(u, st).1|
    ensures Surplus(Within(u, st).1[..k]) == 0
  {
    hide Within;
    WithinTokens(u, st);
    var toks := Within(u, st).1;
    SurplusOne(Newline);
    if k > 0 {
      assert toks[0] in toks && toks[..k] == [toks[0]];
      SurplusOne(toks[0]);
    } else {
      assert toks[..k] == [];
    }
  }

  /** Layout is balanced: from any state, no prefix of the stream closes more
      blocks than are open, and in the end all are closed. */
  lemma {:induction false} TokensBalanced(u: Alphabet, st: State, k: nat)
    requires Stack(st.indents) && !st.done && k <= |Tokens(u, st)|
    ensures |st.indents| - 1 + Surplus(Tokens(u, st)[..k]) >= 0
    ensures Surplus(Tokens(u, st)) == 1 - |st.indents|
    decreases |st.src|, if st.atLineStart then 1 else 0, if st.done then 0 else 1
  {
    hide Step;
    StepProgress(u, st);
    StepKeepsStack(u, st);
    StepSurplus(u, st);
    var (st', toks) := Step(u, st);
    var all := Tokens(u, st);
    if st'.done {
      DoneFlat(u, st);
      assert all == toks;
      StepPrefix(u, st, k);
    } else {
      SurplusConcat(toks, Tokens(u, st'));
      if k <= |toks| {
        assert all[..k] == toks[..k];
        StepPrefix(u, st, k);
        TokensBalanced(u, st', 0);
      } else {
        assert all[..k] == toks + Tokens(u, st')[..k - |toks|];
        SurplusConcat(toks, Tokens(u, st')[..k - |toks|]);
        TokensBalanced(u, st', k - |toks|);
      }
    }
  }

  /** Only the end of input ends the scan, with an empty stack. */
  lemma DoneFlat(u: Alphabet, st: State)
    requires st.indents != [] && !st.done && Step(u, st).0.done
    ensures |Step(u, st).0.indents| == 1 && Step(u, st) == Finish(Begin(st))
  {
  }

  /** The stream ends in its only End. */
  lemma {:induction false} OneEnd(u: Alphabet, st: State)
    requires st.indents != [] && !st.done
    ensures var toks := Tokens(u, st);
            toks != [] && toks[|toks| - 1] == End && forall i :: 0 <= i < |toks| - 1 ==> toks[i] != End
    decreases |st.src|, if st.atLineStart then 1 else 0, if st.done then 0 else 1
  {
    hide Step;
    StepProgress(u, st);
    var (st', toks) := Step(u, st);
    if st'.done {
      DoneFlat(u, st);
      assert Tokens(u, st) == toks;
    } else {
      NoEndYet(u, st);
      OneEnd(u, st');
    }
  }

  lemma NoEndYet(u: Alphabet, st: State)
    requires st.indents != [] && !st.done && !Step(u, st).0.done
    ensures forall i :: 0 <= i < |Step(u, st).1| ==> Step(u, st).1[i] != End
  {
  }

  /** Inside brackets, before the end of input, a step makes no layout token and
      keeps the stack. */
  lemma NoLayoutInBrackets(u: Alphabet, st: State)
    requires st.indents != [] && st.started && st.parens > 0 && st.src != []
    ensures Step(u, st).0.indents == st.indents
    ensures forall i :: 0 <= i < |Step(u, st).1| ==> !IsLayout(Step(u, st).1[i])
  {
  }

  // Runs.

  function After(u: Alphabet, st: State, n: nat): (r: (State, seq<Token>))
    requires st.indents != []
    ensures r.0.indents != []
    decreases n
  {
    if n == 0 then (st, [])
    else
      var (st1, toks) := After(u, st, n - 1);
      var (st2, more) := Step(u, st1);
      (st2, toks + more)
  }

  /** After every number of steps the stack is strictly increasing from zero and
      as high as the tokens so far say. */
  lemma {:induction false} StackIsSurplus(u: Alphabet, src: seq<Rune>, n: nat)
    ensures var (st, toks) := After(u, Initial(src), n); Stack(st.indents) && |st.indents| - 1 == Surplus(toks)
    decreases n
  {
    hide Step;
    SurplusOne(End);
    if n > 0 {
      StackIsSurplus(u, src, n - 1);
      var (st1, toks) := After(u, Initial(src), n - 1);
      StepKeepsStack(u, st1);
      StepSurplus(u, st1);
      SurplusConcat(toks, Step(u, st1).1);
    }
  }

  /** On every input: every prefix of the stream has at least as many INDENTs as
      DEDENTs, the totals agree, and the stream ends in its one end token. */
  lemma LayoutBalanced(u: Alphabet, src: seq<Rune>, k: nat)
    requires k <= |Tokens(u, Initial(src))|
    ensures var toks := Tokens(u, Initial(src));
            && Count(toks[..k], Indent) >= Count(toks[..k], Dedent)
            && Count(toks, Indent) == Count(toks, Dedent)
            && toks != [] && toks[|toks| - 1] == End && forall i :: 0 <= i < |toks| - 1 ==> toks[i] != End
  {
    TokensBalanced(u, Initial(src), k);
    OneEnd(u, Initial(src));
  }

  // Written and read again.

  predicate QuotesAreNoLetters(u: Alphabet) {
    !u.letter(SINGLE) && !u.letter(DOUBLE)
  }

  /** Inside a line, what `repr` writes is one string token of that text, without a
      diagnostic, and nothing else is consumed. */
  lemma ReprIsOneToken(u: Alphabet, st: State, s: seq<Rune>, ascii: bool, tail: seq<Rune>)
    requires QuotesAreNoLetters(u) && st.indents != [] && Scalars(s) && st.src == Repr(s, ascii) + tail
    ensures Within(u, st) == (Consume(st, tail), [Str(PLAIN, s, false)]) <==> !RunsOn(s, tail)
  {
    hide ScanString;
    ReprReads(s, ascii, tail);
    assert st.src[0] == ReprQuote(s);
  }

  /** A source that is nothing but the repr of a string is that string's token. */
  lemma ReprLexes(u: Alphabet, s: seq<Rune>, ascii: bool)
    requires QuotesAreNoLetters(u) && Scalars(s)
    ensures Tokens(u, Initial(Repr(s, ascii))) == [Str(PLAIN, s, false), Newline, End]
  {
    hide Repr, Tokens, Within, Finish;
    var src := Repr(s, ascii);
    var st0 := Initial(src);
    QuoteFirst(s, ascii);
    var st1 := State(src, true, false, [0], 0, false, false);
    assert Measure(src, 0) == (0, src);
    assert Dedents(0) == [] && Step(u, st0) == (st1, []);
    assert src == src + [];
    ReprIsOneToken(u, st1, s, ascii, []);
    var st2 := st1.(src := [], lineHasTok := true);
    assert Step(u, st1) == (st2, [Str(PLAIN, s, false)]);
    EndOfLine(u, st2);
    OneStep(u, st0);
    OneStep(u, st1);
  }

  lemma OneStep(u: Alphabet, st: State)
    requires st.indents != [] && !st.done
    ensures Tokens(u, st) == Step(u, st).1 + Tokens(u, Step(u, st).0)
  {
  }

  lemma QuoteFirst(s: seq<Rune>, ascii: bool)
    ensures Repr(s, ascii) != [] && IsQuote(Repr(s, ascii)[0])
  {
  }

  lemma EndOfLine(u: Alphabet, st: State)
    requires st.src == [] && st.indents == [0] && st.lineHasTok && !st.done && st.started
    ensures Tokens(u, st) == [Newline, End]
  {
    var st' := Finish(st).0;
    assert Step(u, st) == Finish(st) == (st', [Newline] + Dedents(0) + [End]);
    OneStep(u, st);
    assert Tokens(u, st') == [];
  }
}
