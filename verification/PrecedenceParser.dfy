/** The precedence-climbing expression parser (parser/parser.go): the one right
    tree for every token sequence. The Python Language Reference, section 6.17. */
module PrecedenceParser {

  datatype Op = Pipe | Caret | Amp | LShift | RShift | Plus | Minus | Star | Slash | DoubleSlash | Percent | AtSign

  datatype Sign = Positive | Negative | Inverted

  /** An operand is an atom with its attribute, call and subscript trailers. Any
      other token ends an expression of this grammar. */
  datatype Token = Operand(name: string) | Binary(op: Op) | Tilde | Power | LParen | RParen | Other

  /** A tree that remembers its parentheses. */
  datatype Tree =
    | Leaf(name: string)
    | Unit
    | Paren(inner: Tree)
    | Unary(sign: Sign, arg: Tree)
    | Raise(base: Tree, exponent: Tree)
    | Apply(op: Op, left: Tree, right: Tree)

  function Prec(op: Op): (p: nat)
    ensures 1 <= p <= 6
  {
    match op
    case Pipe => 1
    case Caret => 2
    case Amp => 3
    case LShift => 4
    case RShift => 4
    case Plus => 5
    case Minus => 5
    case _ => 6
  }

  /** How tightly the root of a tree binds: the binary operators, then the signs,
      then `**`, then what needs no parentheses. */
  function Level(t: Tree): nat {
    match t
    case Apply(op, _, _) => Prec(op)
    case Unary(_, _) => 7
    case Raise(_, _) => 8
    case _ => 9
  }

  /** Left children bind at least as tightly as their parent and right children
      more tightly; `**` takes an atom and raises it to a signed or power term. */
  predicate Right(t: Tree) {
    match t
    case Leaf(_) => true
    case Unit => true
    case Paren(x) => Right(x)
    case Unary(_, x) => Right(x) && Level(x) >= 7
    case Raise(b, e) => Right(b) && Right(e) && Level(b) >= 9 && Level(e) >= 7
    case Apply(op, l, r) => Right(l) && Right(r) && Level(l) >= Prec(op) && Level(r) > Prec(op)
  }

  function SignToken(s: Sign): Token {
    match s
    case Positive => Binary(Plus)
    case Negative => Binary(Minus)
    case Inverted => Tilde
  }

  /** The tokens of a tree, in order. */
  function Yield(t: Tree): (ts: seq<Token>)
    ensures ts != []
  {
    match t
    case Leaf(n) => [Operand(n)]
    case Unit => [LParen, RParen]
    case Paren(x) => [LParen] + Yield(x) + [RParen]
    case Unary(s, x) => [SignToken(s)] + Yield(x)
    case Raise(b, e) => Yield(b) + [Power] + Yield(e)
    case Apply(op, l, r) => Yield(l) + [Binary(op)] + Yield(r)
  }

  // The parser as a function from the tokens left to a tree and what is left after it.

  datatype Parse = Ok(tree: Tree, rest: seq<Token>) | Err

  function SignOf(t: Token): Sign
    requires IsSign(t)
  {
    if t == Binary(Plus) then Positive else if t == Binary(Minus) then Negative else Inverted
  }

  predicate IsSign(t: Token) {
    t == Binary(Plus) || t == Binary(Minus) || t == Tilde
  }

  predicate Continues(ts: seq<Token>, p: nat) {
    ts != [] && ts[0].Binary? && Prec(ts[0].op) >= p
  }

  function ParseBinary(p: nat, ts: seq<Token>): (r: Parse)
    ensures r.Ok? ==> |r.rest| < |ts|
    decreases |ts|, 4
  {
    match ParseFactor(ts)
    case Err => Err
    case Ok(x, rest) => Climb(p, x, rest)
  }

  function Climb(p: nat, x: Tree, ts: seq<Token>): (r: Parse)
    ensures r.Ok? ==> |r.rest| <= |ts|
    decreases |ts|, 5
  {
    if Continues(ts, p) then
      match ParseBinary(Prec(ts[0].op) + 1, ts[1..])
      case Err => Err
      case Ok(y, rest) => Climb(p, Apply(ts[0].op, x, y), rest)
    else Ok(x, ts)
  }

  function ParseFactor(ts: seq<Token>): (r: Parse)
    ensures r.Ok? ==> |r.rest| < |ts|
    decreases |ts|, 3
  {
    if ts != [] && IsSign(ts[0]) then
      match ParseFactor(ts[1..])
      case Err => Err
      case Ok(x, rest) => Ok(Unary(SignOf(ts[0]), x), rest)
    else ParsePower(ts)
  }

  function ParsePower(ts: seq<Token>): (r: Parse)
    ensures r.Ok? ==> |r.rest| < |ts|
    decreases |ts|, 2
  {
    match ParsePrimary(ts)
    case Err => Err
    case Ok(x, rest) =>
      if rest != [] && rest[0] == Power then
        match ParseFactor(rest[1..])
        case Err => Err
        case Ok(y, rest') => Ok(Raise(x, y), rest')
      else Ok(x, rest)
  }

  /** An opening parenthesis behind an atom starts a call, which is a trailer and
      so not a token of its own here. */
  function ParsePrimary(ts: seq<Token>): (r: Parse)
    ensures r.Ok? ==> |r.rest| < |ts|
    decreases |ts|, 1
  {
    match ParseAtom(ts)
    case Err => Err
    case Ok(x, rest) => if rest != [] && rest[0] == LParen then Err else Ok(x, rest)
  }

  function ParseAtom(ts: seq<Token>): (r: Parse)
    ensures r.Ok? ==> |r.rest| < |ts|
    decreases |ts|, 0
  {
    if ts == [] then Err
    else
      match ts[0]
      case Operand(n) => Ok(Leaf(n), ts[1..])
      case LParen =>
        if |ts| > 1 && ts[1] == RParen then Ok(Unit, ts[2..])
        else
          (match ParseBinary(1, ts[1..])
           case Err => Err
           case Ok(x, rest) => if rest != [] && rest[0] == RParen then Ok(Paren(x), rest[1..]) else Err)
      case _ => Err
  }

  // Soundness: the tree is right, its tokens are what was consumed, and the
  // parser stopped only where nothing could continue.

  /** Nothing at the front of `ts` can extend an expression of level `p`. */
  predicate Ends(ts: seq<Token>, p: nat) {
    !Continues(ts, p) && (ts != [] ==> ts[0] != Power && ts[0] != LParen)
  }

  lemma {:induction false} BinarySound(p: nat, ts: seq<Token>)
    requires 1 <= p <= 7
    ensures var r := ParseBinary(p, ts); r.Ok? ==>
      Yield(r.tree) + r.rest == ts && Right(r.tree) && Level(r.tree) >= p && Ends(r.rest, p)
    decreases |ts|, 4
  {
    FactorSound(ts);
    var r := ParseFactor(ts);
    if r.Ok? {
      ClimbSound(p, r.tree, r.rest);
    }
  }

  lemma {:induction false} ClimbSound(p: nat, x: Tree, ts: seq<Token>)
    requires 1 <= p <= 7 && Right(x) && Level(x) >= p && Ends(ts, Level(x) + 1)
    ensures var r := Climb(p, x, ts); r.Ok? ==>
      Yield(r.tree) + r.rest == Yield(x) + ts && Right(r.tree) && Level(r.tree) >= p && Ends(r.rest, p)
    decreases |ts|, 5
  {
    if Continues(ts, p) {
      var op := ts[0].op;
      BinarySound(Prec(op) + 1, ts[1..]);
      var r := ParseBinary(Prec(op) + 1, ts[1..]);
      if r.Ok? {
        assert Yield(x) + ts == Yield(x) + [Binary(op)] + Yield(r.tree) + r.rest;
        ClimbSound(p, Apply(op, x, r.tree), r.rest);
      }
    }
  }

  lemma {:induction false} FactorSound(ts: seq<Token>)
    ensures var r := ParseFactor(ts); r.Ok? ==>
      Yield(r.tree) + r.rest == ts && Right(r.tree) && Level(r.tree) >= 7 && Ends(r.rest, 7)
    decreases |ts|, 3
  {
    if ts != [] && IsSign(ts[0]) {
      FactorSound(ts[1..]);
      var r := ParseFactor(ts[1..]);
      if r.Ok? {
        assert ts == [ts[0]] + (Yield(r.tree) + r.rest);
      }
    } else {
      PowerSound(ts);
    }
  }

  lemma {:induction false} PowerSound(ts: seq<Token>)
    ensures var r := ParsePower(ts); r.Ok? ==>
      Yield(r.tree) + r.rest == ts && Right(r.tree) && Level(r.tree) >= 7 && Ends(r.rest, 7)
    decreases |ts|, 2
  {
    hide ParsePrimary, ParseFactor, Yield, Ends;
    PrimarySound(ts);
    var r := ParsePrimary(ts);
    if r.Ok? {
      if r.rest != [] && r.rest[0] == Power {
        FactorSound(r.rest[1..]);
        var e := ParseFactor(r.rest[1..]);
        if e.Ok? {
          RaiseYield(r.tree, e.tree, r.rest, e.rest);
        }
      } else {
        AtomEnds(r.rest);
      }
    }
  }

  lemma RaiseYield(b: Tree, e: Tree, ts: seq<Token>, rest: seq<Token>)
    requires ts != [] && ts[0] == Power && ts[1..] == Yield(e) + rest
    ensures Yield(Raise(b, e)) + rest == Yield(b) + ts
  {
    assert ts == [Power] + (Yield(e) + rest);
    assert Yield(Raise(b, e)) + rest == Yield(b) + ([Power] + (Yield(e) + rest));
  }

  lemma AtomEnds(rest: seq<Token>)
    requires rest != [] ==> rest[0] != LParen && rest[0] != Power
    ensures Ends(rest, 7)
  {
  }

  lemma {:induction false} PrimarySound(ts: seq<Token>)
    ensures var r := ParsePrimary(ts); r.Ok? ==>
      Yield(r.tree) + r.rest == ts && Right(r.tree) && Level(r.tree) >= 9 && (r.rest != [] ==> r.rest[0] != LParen)
    decreases |ts|, 1
  {
    hide ParseBinary;
    if ts != [] && ts[0] == LParen {
      GroupSound(ts);
    } else if ts != [] && ts[0].Operand? {
      assert ts == [ts[0]] + ts[1..];
    }
  }

  lemma {:induction false} GroupSound(ts: seq<Token>)
    requires ts != [] && ts[0] == LParen
    ensures var r := ParseAtom(ts); r.Ok? ==> Yield(r.tree) + r.rest == ts && Right(r.tree) && Level(r.tree) >= 9
    decreases |ts|, 0
  {
    hide ParseBinary, Ends;
    if |ts| > 1 && ts[1] == RParen {
      assert ts == [LParen, RParen] + ts[2..];
    } else {
      BinarySound(1, ts[1..]);
      var r := ParseBinary(1, ts[1..]);
      if r.Ok? && r.rest != [] && r.rest[0] == RParen {
        ParenYield(r.tree, ts, r.rest);
      }
    }
  }

  lemma ParenYield(x: Tree, ts: seq<Token>, rest: seq<Token>)
    requires ts != [] && ts[0] == LParen && rest != [] && rest[0] == RParen && Yield(x) + rest == ts[1..]
    ensures Yield(Paren(x)) + rest[1..] == ts
  {
    assert rest == [RParen] + rest[1..];
    assert ts == [LParen] + ts[1..];
    assert Yield(Paren(x)) + rest[1..] == [LParen] + (Yield(x) + rest);
  }

  // Completeness: the tokens of a right tree parse to that tree.

  lemma {:induction false} FirstToken(t: Tree)
    requires Right(t)
    ensures Yield(t)[0] != RParen && Yield(t)[0] != Power
    ensures Level(t) >= 8 ==> !IsSign(Yield(t)[0])
    ensures Level(t) >= 9 ==> Yield(t)[0].Operand? || Yield(t)[0] == LParen
    decreases t
  {
    match t
    case Raise(b, _) => FirstToken(b);
    case Apply(_, l, _) => FirstToken(l);
    case _ =>
  }

  /** Climbing from a right tree's tokens is climbing from the tree. */
  lemma {:induction false} BinaryFinds(p: nat, t: Tree, rest: seq<Token>)
    requires Right(t) && Level(t) >= p && Ends(rest, Level(t) + 1)
    ensures ParseBinary(p, Yield(t) + rest) == Climb(p, t, rest)
    decreases t, 4
  {
    if t.Apply? {
      ApplyFinds(p, t, rest);
    } else {
      FactorFinds(t, rest);
    }
  }

  lemma {:induction false} ApplyFinds(p: nat, t: Tree, rest: seq<Token>)
    requires t.Apply? && Right(t) && Level(t) >= p && Ends(rest, Level(t) + 1)
    ensures ParseBinary(p, Yield(t) + rest) == Climb(p, t, rest)
    decreases t, 2
  {
    hide ParseBinary;
    var tail := [Binary(t.op)] + Yield(t.right) + rest;
    assert Yield(t) + rest == Yield(t.left) + tail;
    assert tail[1..] == Yield(t.right) + rest;
    BinaryFinds(p, t.left, tail);
    BinaryFinds(Prec(t.op) + 1, t.right, rest);
    assert Climb(Prec(t.op) + 1, t.right, rest) == Ok(t.right, rest);
  }

  lemma {:induction false} FactorFinds(t: Tree, rest: seq<Token>)
    requires Right(t) && Level(t) >= 7 && (rest != [] ==> rest[0] != Power && rest[0] != LParen)
    ensures ParseFactor(Yield(t) + rest) == Ok(t, rest)
    decreases t, 3
  {
    hide Yield, Right, ParsePower;
    if t.Unary? {
      UnaryRight(t);
      UnaryYield(t.sign, t.arg, rest);
      FactorFinds(t.arg, rest);
    } else {
      FirstToken(t);
      PowerFinds(t, rest);
    }
  }

  lemma UnaryYield(s: Sign, x: Tree, rest: seq<Token>)
    ensures var ts := Yield(Unary(s, x)) + rest; IsSign(ts[0]) && SignOf(ts[0]) == s && ts[1..] == Yield(x) + rest
  {
  }

  lemma UnaryRight(t: Tree)
    requires t.Unary? && Right(t)
    ensures Right(t.arg) && Level(t.arg) >= 7
  {
  }

  lemma {:induction false} PowerFinds(t: Tree, rest: seq<Token>)
    requires Right(t) && Level(t) >= 8 && (rest != [] ==> rest[0] != Power && rest[0] != LParen)
    ensures ParsePower(Yield(t) + rest) == Ok(t, rest)
    decreases t, 2
  {
    if t.Raise? {
      RaiseFinds(t, rest);
    } else {
      hide ParsePrimary, Yield;
      PrimaryFinds(t, rest);
    }
  }

  lemma {:induction false} RaiseFinds(t: Tree, rest: seq<Token>)
    requires t.Raise? && Right(t) && (rest != [] ==> rest[0] != Power && rest[0] != LParen)
    ensures ParsePower(Yield(t) + rest) == Ok(t, rest)
    decreases t, 0
  {
    hide ParsePrimary, ParseFactor, Yield;
    var tail := [Power] + (Yield(t.exponent) + rest);
    RaiseYield(t.base, t.exponent, tail, rest);
    PrimaryFinds(t.base, tail);
    FactorFinds(t.exponent, rest);
  }

  lemma {:induction false} PrimaryFinds(t: Tree, rest: seq<Token>)
    requires Right(t) && Level(t) >= 9 && (rest != [] ==> rest[0] != LParen)
    ensures ParsePrimary(Yield(t) + rest) == Ok(t, rest)
    decreases t, 1
  {
    if t.Paren? {
      ParenFinds(t, rest);
    } else if t.Leaf? {
      assert (Yield(t) + rest)[1..] == rest;
    } else {
      assert (Yield(t) + rest)[2..] == rest;
    }
  }

  lemma {:induction false} ParenFinds(t: Tree, rest: seq<Token>)
    requires t.Paren? && Right(t) && (rest != [] ==> rest[0] != LParen)
    ensures ParsePrimary(Yield(t) + rest) == Ok(t, rest)
    decreases t, 0
  {
    hide ParseBinary;
    var tail := [RParen] + rest;
    var ts := Yield(t) + rest;
    FirstToken(t.inner);
    assert ts[1..] == Yield(t.inner) + tail;
    assert ts[1] == Yield(t.inner)[0];
    BinaryFinds(1, t.inner, tail);
    assert ParseBinary(1, ts[1..]) == Ok(t.inner, tail);
    assert tail[1..] == rest;
    assert ParseAtom(ts) == Ok(t, rest);
  }

  /** `parseBinary(p)` returns exactly the right tree of level `p` or tighter whose
      tokens it is given, when nothing behind them continues it. */
  lemma RightTreeIsFound(p: nat, t: Tree, rest: seq<Token>)
    requires Right(t) && Level(t) >= p && Ends(rest, p)
    ensures ParseBinary(p, Yield(t) + rest) == Ok(t, rest)
  {
    BinaryFinds(p, t, rest);
  }

  /** No two right trees have the same tokens. */
  lemma RightTreeUnique(t: Tree, u: Tree)
    requires Right(t) && Right(u) && Yield(t) == Yield(u)
    ensures t == u
  {
    assert Yield(t) + [] == Yield(t) && Yield(u) + [] == Yield(u);
    RightTreeIsFound(0, t, []);
    RightTreeIsFound(0, u, []);
  }

  // Maximality: what is parsed does not change, except to grow, when more follows.

  predicate Extends(r: Parse, r': Parse, ts: seq<Token>, more: seq<Token>) {
    r.Ok? ==>
      && (r.rest != [] ==> r' == Ok(r.tree, r.rest + more))
      && (r.rest == [] ==> r'.Err? || |r'.rest| <= |more|)
  }

  lemma {:induction false} BinaryExtends(p: nat, ts: seq<Token>, more: seq<Token>)
    ensures Extends(ParseBinary(p, ts), ParseBinary(p, ts + more), ts, more)
    decreases |ts|, 3
  {
    FactorExtends(ts, more);
    var r, r' := ParseFactor(ts), ParseFactor(ts + more);
    if r.Ok? && r.rest != [] {
      ClimbExtends(p, r.tree, r.rest, more);
    }
  }

  lemma {:induction false} ClimbExtends(p: nat, x: Tree, ts: seq<Token>, more: seq<Token>)
    requires ts != []
    ensures Extends(Climb(p, x, ts), Climb(p, x, ts + more), ts, more)
    decreases |ts|, 4
  {
    if Continues(ts, p) {
      assert (ts + more)[1..] == ts[1..] + more;
      BinaryExtends(Prec(ts[0].op) + 1, ts[1..], more);
      var r := ParseBinary(Prec(ts[0].op) + 1, ts[1..]);
      if r.Ok? && r.rest != [] {
        ClimbExtends(p, Apply(ts[0].op, x, r.tree), r.rest, more);
      }
    }
  }

  lemma {:induction false} FactorExtends(ts: seq<Token>, more: seq<Token>)
    ensures Extends(ParseFactor(ts), ParseFactor(ts + more), ts, more)
    decreases |ts|, 2
  {
    if ts != [] && IsSign(ts[0]) {
      assert (ts + more)[1..] == ts[1..] + more;
      FactorExtends(ts[1..], more);
    } else if ts != [] {
      PrimaryExtends(ts, more);
      var r := ParsePrimary(ts);
      if r.Ok? && r.rest != [] && r.rest[0] == Power {
        assert (r.rest + more)[1..] == r.rest[1..] + more;
        FactorExtends(r.rest[1..], more);
      }
    }
  }

  lemma {:induction false} PrimaryExtends(ts: seq<Token>, more: seq<Token>)
    requires ts != []
    ensures Extends(ParsePrimary(ts), ParsePrimary(ts + more), ts, more)
    decreases |ts|, 1
  {
    var ts' := ts + more;
    assert ts'[0] == ts[0];
    if ts[0].Operand? {
      assert ts'[1..] == ts[1..] + more;
      assert ParseAtom(ts) == Ok(Leaf(ts[0].name), ts[1..]);
      assert ParseAtom(ts') == Ok(Leaf(ts[0].name), ts[1..] + more);
      if |ts| > 1 {
        assert (ts[1..] + more)[0] == ts[1];
      } else {
        assert ts[1..] == [] && |ts[1..] + more| == |more|;
      }
    } else if ts[0] == LParen && |ts| > 1 {
      if ts[1] == RParen {
        assert (ts + more)[2..] == ts[2..] + more;
      } else {
        GroupExtends(ts, more);
      }
    } else if ts == [LParen] {
      NothingParses(1);
      assert ts[1..] == [];
    }
  }

  lemma NothingParses(p: nat)
    ensures ParseBinary(p, []) == Err
  {
    assert ParseAtom([]) == Err;
    assert ParsePrimary([]) == Err;
    assert ParsePower([]) == Err;
    assert ParseFactor([]) == Err;
  }

  lemma {:induction false} GroupExtends(ts: seq<Token>, more: seq<Token>)
    requires |ts| > 1 && ts[0] == LParen && ts[1] != RParen
    ensures Extends(ParsePrimary(ts), ParsePrimary(ts + more), ts, more)
    decreases |ts|, 0
  {
    var ts' := ts + more;
    assert ts'[0] == LParen && ts'[1] == ts[1];
    assert ts'[1..] == ts[1..] + more;
    BinaryExtends(1, ts[1..], more);
    var r := ParseBinary(1, ts[1..]);
    if r.Ok? && r.rest != [] && r.rest[0] == RParen {
      var rest := r.rest[1..];
      assert (r.rest + more)[1..] == rest + more;
      assert ParseAtom(ts) == Ok(Paren(r.tree), rest);
      assert ParseAtom(ts') == Ok(Paren(r.tree), rest + more);
    } else {
      assert ParseAtom(ts) == Err;
    }
  }

  /** `parseBinary(p)` consumes the longest prefix that has a right tree of level
      `p` or tighter. */
  lemma ParsesMaximalPrefix(p: nat, ts: seq<Token>, n: nat, t: Tree)
    requires 1 <= p <= 7 && n <= |ts| && Right(t) && Level(t) >= p && Yield(t) == ts[..n]
    ensures ParseBinary(p, ts).Ok? ==> |ts| - |ParseBinary(p, ts).rest| >= n
  {
    assert Yield(t) + [] == ts[..n];
    RightTreeIsFound(p, t, []);
    BinaryExtends(p, ts[..n], ts[n..]);
    assert ts[..n] + ts[n..] == ts;
  }

  // Printing.

  /** The tree without its parentheses: what the parser keeps. */
  function Strip(t: Tree): Tree {
    match t
    case Paren(x) => Strip(x)
    case Unary(s, x) => Unary(s, Strip(x))
    case Raise(b, e) => Raise(Strip(b), Strip(e))
    case Apply(op, l, r) => Apply(op, Strip(l), Strip(r))
    case _ => t
  }

  predicate Bare(t: Tree) {
    Strip(t) == t
  }

  /** Adds the parentheses the rules require, and no others, where level `p` is needed. */
  function Parenthesized(t: Tree, p: nat): (r: Tree)
    decreases t
  {
    var inner :=
      match t
      case Paren(x) => Parenthesized(x, 0)
      case Unary(s, x) => Unary(s, Parenthesized(x, 7))
      case Raise(b, e) => Raise(Parenthesized(b, 9), Parenthesized(e, 7))
      case Apply(op, l, r) => Apply(op, Parenthesized(l, Prec(op)), Parenthesized(r, Prec(op) + 1))
      case _ => t;
    if Level(inner) < p then Paren(inner) else inner
  }

  lemma {:induction false} ParenthesizedRight(t: Tree, p: nat)
    requires p <= 9
    ensures Right(Parenthesized(t, p)) && Level(Parenthesized(t, p)) >= p && Strip(Parenthesized(t, p)) == Strip(t)
    decreases t
  {
    match t
    case Paren(x) => ParenthesizedRight(x, 0);
    case Unary(_, x) => ParenthesizedRight(x, 7);
    case Raise(b, e) => ParenthesizedRight(b, 9); ParenthesizedRight(e, 7);
    case Apply(op, l, r) => ParenthesizedRight(l, Prec(op)); ParenthesizedRight(r, Prec(op) + 1);
    case _ =>
  }

  /** Printing any tree with the parentheses it needs and parsing that again gives
      the tree back, with everything consumed. */
  lemma PrintParse(t: Tree)
    requires Bare(t)
    ensures ParseBinary(1, Yield(Parenthesized(t, 1))).Ok?
    ensures Strip(ParseBinary(1, Yield(Parenthesized(t, 1))).tree) == t
      && ParseBinary(1, Yield(Parenthesized(t, 1))).rest == []
  {
    ParenthesizedRight(t, 1);
    assert Yield(Parenthesized(t, 1)) + [] == Yield(Parenthesized(t, 1));
    RightTreeIsFound(1, Parenthesized(t, 1), []);
  }

  // The parser object.

  /** A parser over the tokens still to come. An error is recorded and parsing goes on. */
  class Parser {
    var buf: seq<Token>
    var failed: bool

    /** Whether the parse that started on `ts` went as `r` says: with the same tree,
        parentheses dropped, and the same tokens left, or with an error recorded. */
    predicate Follows(r: Parse, x: Tree)
      reads this
    {
      if r.Ok? then !failed && x == Strip(r.tree) && buf == r.rest else failed
    }

    constructor (ts: seq<Token>)
      ensures buf == ts && !failed
    {
      buf, failed := ts, false;
    }

    predicate At(t: Token)
      reads this
    {
      buf != [] && buf[0] == t
    }

    /** The end of input is never consumed. */
    method Advance()
      modifies this`buf
      ensures buf == if old(buf) == [] then [] else old(buf)[1..]
    {
      if buf != [] {
        buf := buf[1..];
      }
    }

    method ParseBinaryExpr(minPrec: nat) returns (x: Tree)
      modifies this
      ensures |buf| <= |old(buf)| && (old(failed) ==> failed)
      ensures !old(failed) ==> Follows(ParseBinary(minPrec, old(buf)), x)
      decreases |buf|, 4
    {
      ghost var start := buf;
      x := ParseFactorExpr();
      ghost var t: Tree := Unit;
      if !old(failed) && ParseFactor(start).Ok? {
        t := ParseFactor(start).tree;
      }
      while buf != [] && buf[0].Binary? && Prec(buf[0].op) >= minPrec
        invariant |buf| <= |start| && (old(failed) ==> failed)
        invariant !failed ==> x == Strip(t)
        invariant !old(failed) ==>
          if failed then ParseBinary(minPrec, start).Err?
          else ParseBinary(minPrec, start) == Climb(minPrec, t, buf)
        decreases |buf|
      {
        var op := buf[0].op;
        ghost var before, ok := buf, !failed;
        Advance();
        var y := ParseBinaryExpr(Prec(op) + 1);
        ghost var r := ParseBinary(Prec(op) + 1, before[1..]);
        if ok && r.Ok? {
          t := Apply(op, t, r.tree);
        }
        x := Apply(op, x, y);
      }
    }

    method ParseFactorExpr() returns (x: Tree)
      modifies this
      ensures |buf| <= |old(buf)| && (old(failed) ==> failed)
      ensures !old(failed) ==> Follows(ParseFactor(old(buf)), x)
      decreases |buf|, 3
    {
      if buf != [] && IsSign(buf[0]) {
        var sign := SignOf(buf[0]);
        Advance();
        x := ParseFactorExpr();
        x := Unary(sign, x);
      } else {
        x := ParsePowerExpr();
      }
    }

    method ParsePowerExpr() returns (x: Tree)
      modifies this
      ensures |buf| <= |old(buf)| && (old(failed) ==> failed)
      ensures !old(failed) ==> Follows(ParsePower(old(buf)), x)
      decreases |buf|, 2
    {
      x := ParsePrimaryExpr();
      if At(Power) {
        Advance();
        var y := ParseFactorExpr();
        x := Raise(x, y);
      }
    }

    method ParsePrimaryExpr() returns (x: Tree)
      modifies this
      ensures |buf| <= |old(buf)| && (old(failed) ==> failed)
      ensures !old(failed) ==> Follows(ParsePrimary(old(buf)), x)
      decreases |buf|, 1
    {
      if buf == [] {
        failed := true;
        x := Unit;
        return;
      }
      match buf[0] {
        case Operand(n) =>
          Advance();
          x := Leaf(n);
        case LParen => x := ParseGroup();
        case _ =>
          failed := true;
          Advance();
          x := Unit;
      }
      assert !old(failed) ==> Follows(ParseAtom(old(buf)), x);
      if At(LParen) {
        failed := true;
      }
    }

    method ParseGroup() returns (x: Tree)
      requires buf != [] && buf[0] == LParen
      modifies this
      ensures |buf| < |old(buf)| && (old(failed) ==> failed)
      ensures !old(failed) ==> Follows(ParseAtom(old(buf)), x)
      decreases |buf|, 0
    {
      Advance();
      if At(RParen) {
        Advance();
        return Unit;
      }
      x := ParseBinaryExpr(1);
      if At(RParen) {
        Advance();
      } else {
        failed := true;
      }
    }
  }
}
