/** String literals both ways: `repr` writes them (hostabi/format.go) and the
    lexer reads them (lexer/lexer.go). The Python Language Reference, section
    2.4.1.1. */
module StringLiteral {
  import opened Wrappers

  /** A code point, or past 0x7f in a bytes literal one byte. */
  type Rune = r: int | 0 <= r <= 0x10FFFF witness 0

  const TAB: Rune := 9
  const NEWLINE: Rune := 10
  const RETURN: Rune := 13
  const DOUBLE: Rune := 34
  const SINGLE: Rune := 39
  const BACKSLASH: Rune := 92

  predicate IsQuote(r: Rune) {
    r == SINGLE || r == DOUBLE
  }

  predicate IsLineEnd(r: Rune) {
    r == NEWLINE || r == RETURN
  }

  /** Every code point but the surrogates. */
  predicate Scalar(v: int) {
    0 <= v <= 0x10FFFF && !(0xD800 <= v <= 0xDFFF)
  }

  // Hexadecimal.

  function HexDigit(d: nat): Rune
    requires d < 16
  {
    if d < 10 then 48 + d else 87 + d
  }

  function HexValue(c: Rune): Option<nat> {
    if 48 <= c <= 57 then Some(c - 48)
    else if 97 <= c <= 102 then Some(c - 87)
    else if 65 <= c <= 70 then Some(c - 55)
    else None
  }

  /** `v` in exactly `n` digits. */
  function Hex(v: nat, n: nat): (ds: seq<Rune>)
    ensures |ds| == n
    decreases n
  {
    if n == 0 then [] else Hex(v / 16, n - 1) + [HexDigit(v % 16)]
  }

  function ParseHex(ds: seq<Rune>): Option<nat>
    decreases ds
  {
    if ds == [] then Some(0)
    else
      match (ParseHex(ds[..|ds| - 1]), HexValue(ds[|ds| - 1]))
      case (Some(v), Some(d)) => Some(16 * v + d)
      case _ => None
  }

  function Pow16(n: nat): nat {
    if n == 0 then 1 else 16 * Pow16(n - 1)
  }

  lemma {:induction false} HexParses(v: nat, n: nat)
    requires v < Pow16(n)
    ensures ParseHex(Hex(v, n)) == Some(v)
    decreases n
  {
    if n > 0 {
      HexParses(v / 16, n - 1);
      var ds := Hex(v, n);
      assert ds[..n - 1] == Hex(v / 16, n - 1);
    }
  }

  // Writing.

  /** The escape of one code point between quotes `q`. */
  function ReprRune(r: Rune, q: Rune, ascii: bool): seq<Rune> {
    if r == q then [BACKSLASH, r]
    else if r == BACKSLASH then [BACKSLASH, BACKSLASH]
    else if r == NEWLINE then [BACKSLASH, 110]
    else if r == RETURN then [BACKSLASH, 114]
    else if r == TAB then [BACKSLASH, 116]
    else if r < 0x20 || r == 0x7f then [BACKSLASH, 120] + Hex(r, 2)
    else if ascii && r > 0x7f then
      if r > 0xffff then [BACKSLASH, 85] + Hex(r, 8)
      else if r > 0xff then [BACKSLASH, 117] + Hex(r, 4)
      else [BACKSLASH, 120] + Hex(r, 2)
    else [r]
  }

  function ReprBody(s: seq<Rune>, q: Rune, ascii: bool): seq<Rune>
    decreases s
  {
    if s == [] then [] else ReprRune(s[0], q, ascii) + ReprBody(s[1..], q, ascii)
  }

  /** Double quotes only when that avoids escaping. */
  function ReprQuote(s: seq<Rune>): (q: Rune)
    ensures IsQuote(q)
  {
    if SINGLE in s && DOUBLE !in s then DOUBLE else SINGLE
  }

  function Repr(s: seq<Rune>, ascii: bool): seq<Rune> {
    var q := ReprQuote(s);
    [q] + ReprBody(s, q, ascii) + [q]
  }

  // Reading.

  /** The prefix letters of a literal. */
  datatype Mode = Mode(raw: bool, formatted: bool, bytes: bool, unicode: bool)

  const PLAIN := Mode(false, false, false, false)

  /** The decoded text, what is left of the input and whether a diagnostic was given. */
  datatype Scan = Scan(text: seq<Rune>, rest: seq<Rune>, bad: bool)

  /** Encoding a value that is no code point writes the replacement character. */
  function WriteRune(v: nat): Rune {
    if Scalar(v) then v else 0xFFFD
  }

  function DecodeHex(src: seq<Rune>, n: nat, asByte: bool): (r: Scan)
    ensures |r.rest| <= |src|
  {
    if |src| < n then Scan([], src, true)
    else
      match ParseHex(src[..n])
      case None => Scan([], src, true)
      case Some(v) => Scan([if asByte then v % 256 else WriteRune(v)], src[n..], false)
  }

  function SimpleEscape(c: Rune): Option<Rune> {
    if c == 110 then Some(10)
    else if c == 116 then Some(9)
    else if c == 114 then Some(13)
    else if c == BACKSLASH then Some(BACKSLASH)
    else if c == SINGLE then Some(SINGLE)
    else if c == DOUBLE then Some(DOUBLE)
    else if c == 48 then Some(0)
    else if c == 97 then Some(7)
    else if c == 98 then Some(8)
    else if c == 102 then Some(12)
    else if c == 118 then Some(11)
    else None
  }

  /** What follows a backslash. An unknown escape is kept with its backslash. */
  function DecodeEscape(src: seq<Rune>, mode: Mode): (r: Scan)
    ensures |r.rest| <= |src|
  {
    if src == [] then Scan([], [], true)
    else
      var c := src[0];
      if SimpleEscape(c).Some? then Scan([SimpleEscape(c).value], src[1..], false)
      else if c == 120 then DecodeHex(src[1..], 2, mode.bytes)
      else if (c == 117 || c == 85) && !mode.bytes then DecodeHex(src[1..], if c == 117 then 4 else 8, false)
      else Scan([BACKSLASH, c], src[1..], false)
  }

  // The reference: section 2.4.1.1.

  predicate IsOctal(c: Rune) {
    48 <= c <= 55
  }

  /** The digits of an octal escape, three at most. */
  function OctalDigits(src: seq<Rune>): (n: nat)
    requires src != [] && IsOctal(src[0])
    ensures 1 <= n <= 3 && n <= |src|
  {
    if |src| < 2 || !IsOctal(src[1]) then 1 else if |src| < 3 || !IsOctal(src[2]) then 2 else 3
  }

  function Octal(ds: seq<Rune>): (v: nat)
    requires |ds| <= 3 && forall k :: 0 <= k < |ds| ==> IsOctal(ds[k])
    ensures v < if |ds| == 0 then 1 else if |ds| == 1 then 8 else if |ds| == 2 then 64 else 512
  {
    if ds == [] then 0
    else
      var d: int := ds[|ds| - 1];
      assert IsOctal(d);
      8 * Octal(ds[..|ds| - 1]) + d - 48
  }

  /** The name in `\N{...}`, its closing brace not included. */
  function NameLength(src: seq<Rune>): (n: nat)
    ensures n <= |src|
  {
    if src == [] || src[0] == 125 then 0 else 1 + NameLength(src[1..])
  }

  /** The escapes of the reference: the text one stands for and what follows it, or
      nothing when the literal is in error. `named` knows Unicode's names. */
  function Reference(src: seq<Rune>, bytes: bool, named: seq<Rune> -> Option<Rune>): Option<(seq<Rune>, seq<Rune>)> {
    if src == [] || (bytes && src[0] > 0x7f) then None
    else
      var c := src[0];
      if IsLineEnd(c) then Some(([], AfterNewline(src)))
      else if IsOctal(c) then
        var n := OctalDigits(src);
        Some(([if bytes then Octal(src[..n]) % 256 else Octal(src[..n])], src[n..]))
      else if SimpleEscape(c).Some? then Some(([SimpleEscape(c).value], src[1..]))
      else if c == 120 then CodeEscape(src[1..], 2)
      else if bytes then Some(([BACKSLASH, c], src[1..]))
      else if c == 117 then CodeEscape(src[1..], 4)
      else if c == 85 then CodeEscape(src[1..], 8)
      else if c == 78 then NamedEscape(src[1..], named)
      else Some(([BACKSLASH, c], src[1..]))
  }

  /** Exactly `n` digits, of any code point, a surrogate included. */
  function CodeEscape(src: seq<Rune>, n: nat): Option<(seq<Rune>, seq<Rune>)> {
    if |src| < n then None
    else
      match ParseHex(src[..n])
      case Some(v) => if v <= 0x10FFFF then Some(([v], src[n..])) else None
      case None => None
  }

  function NamedEscape(src: seq<Rune>, named: seq<Rune> -> Option<Rune>): Option<(seq<Rune>, seq<Rune>)> {
    if src == [] || src[0] != 123 then None
    else
      var n := NameLength(src[1..]);
      if n == |src| - 1 then None
      else match named(src[1..n + 1]) case Some(r) => Some(([r], src[n + 2..])) case None => None
  }

  /** The escapes that are decoded otherwise: a line end and a name are kept, as are
      octal numbers, but for a nought whose further digits are left; a code point
      that cannot be encoded is replaced; and in bytes anything may be escaped. */
  predicate Departs(src: seq<Rune>, bytes: bool) {
    && src != []
    && var c := src[0];
      || IsLineEnd(c) || 49 <= c <= 55 || (c == 48 && |src| > 1 && IsOctal(src[1]))
      || (bytes && c > 0x7f)
      || (!bytes && (c == 78 || (c == 117 && NoScalar(src[1..], 4)) || (c == 85 && NoScalar(src[1..], 8))))
  }

  predicate NoScalar(src: seq<Rune>, n: nat) {
    |src| >= n && ParseHex(src[..n]).Some? && !Scalar(ParseHex(src[..n]).value)
  }

  /** Decoding an escape is what the reference says exactly for all others. */
  lemma EscapeIsReference(src: seq<Rune>, mode: Mode, named: seq<Rune> -> Option<Rune>)
    ensures (match Reference(src, mode.bytes, named)
             case Some((text, rest)) => DecodeEscape(src, mode) == Scan(text, rest, false)
             case None => DecodeEscape(src, mode).bad) <==> !Departs(src, mode.bytes)
  {
    hide ParseHex, Octal, OctalDigits;
    if |src| > 2 {
      HexBelow(src[1..][..2]);
    }
    if src != [] && IsOctal(src[0]) {
      OneDigit(src);
    }
  }

  lemma OneDigit(src: seq<Rune>)
    requires src != [] && IsOctal(src[0])
    ensures OctalDigits(src) == 1 <==> |src| < 2 || !IsOctal(src[1])
    ensures Octal(src[..1]) == src[0] - 48
  {
    assert src[..1][..0] == [];
  }

  lemma {:induction false} HexBelow(ds: seq<Rune>)
    requires |ds| <= 2
    ensures ParseHex(ds).Some? ==> ParseHex(ds).value < if |ds| == 0 then 1 else if |ds| == 1 then 16 else 256
  {
    if ds != [] {
      HexBelow(ds[..|ds| - 1]);
    }
  }

  /** A line end is one of `\n`, `\r` and `\r\n`. */
  function AfterNewline(src: seq<Rune>): (r: seq<Rune>)
    requires src != []
    ensures |r| < |src|
  {
    if src[0] == RETURN && |src| > 1 && src[1] == NEWLINE then src[2..] else src[1..]
  }

  predicate Direct(c: Rune, mode: Mode) {
    mode.bytes && c > 0x7f
  }

  function ScanBody(mode: Mode, q: Rune, triple: bool, src: seq<Rune>, text: seq<Rune>, bad: bool): (r: Scan)
    ensures |r.rest| <= |src|
    decreases |src|
  {
    if src == [] then Scan(text, [], true)
    else
      var c := src[0];
      if !triple && IsLineEnd(c) then Scan(text, src, true)
      else if c == q then
        if !triple then Scan(text, src[1..], bad)
        else if |src| >= 3 && src[1] == q && src[2] == q then Scan(text, src[3..], bad)
        else ScanBody(mode, q, triple, src[1..], text + [c], bad)
      else if IsLineEnd(c) then ScanBody(mode, q, triple, AfterNewline(src), text + [NEWLINE], bad)
      else if c == BACKSLASH then
        if mode.raw then
          if |src| == 1 then ScanBody(mode, q, triple, [], text + [c], bad)
          else ScanBody(mode, q, triple, src[2..], text + [c, src[1]], bad || Direct(src[1], mode))
        else
          var e := DecodeEscape(src[1..], mode);
          ScanBody(mode, q, triple, e.rest, text + e.text, bad || e.bad)
      else ScanBody(mode, q, triple, src[1..], text + [c], bad || Direct(c, mode))
  }

  /** A literal whose opening quote is at the front. */
  function ScanString(mode: Mode, src: seq<Rune>): (r: Scan)
    requires src != []
    ensures |r.rest| < |src|
  {
    var q := src[0];
    var triple := |src| >= 3 && src[1] == q && src[2] == q;
    ScanBody(mode, q, triple, src[if triple then 3 else 1..], [], mode.unicode)
  }

  // Round trip.

  lemma HexReads(v: nat, n: nat, more: seq<Rune>)
    requires Scalar(v) && v < Pow16(n)
    ensures DecodeHex(Hex(v, n) + more, n, false) == Scan([v], more, false)
  {
    HexParses(v, n);
    hide Hex, Pow16, ParseHex;
    var src := Hex(v, n) + more;
    assert src[..n] == Hex(v, n) && src[n..] == more;
  }

  lemma HexEscapeReads(v: nat, n: nat, c: Rune, more: seq<Rune>)
    requires Scalar(v) && v < Pow16(n) && ((c == 120 && n == 2) || (c == 117 && n == 4) || (c == 85 && n == 8))
    ensures DecodeEscape([c] + Hex(v, n) + more, PLAIN) == Scan([v], more, false)
  {
    hide Hex, Pow16, DecodeHex;
    HexReads(v, n, more);
    var src := [c] + Hex(v, n) + more;
    assert src[1..] == Hex(v, n) + more;
  }

  lemma Powers()
    ensures Pow16(2) == 256 && Pow16(4) == 0x10000 && Pow16(8) == 0x100000000
  {
    assert Pow16(4) == 16 * Pow16(3) && Pow16(3) == 16 * Pow16(2);
    assert Pow16(8) == 16 * Pow16(7) && Pow16(7) == 16 * Pow16(6) && Pow16(6) == 16 * Pow16(5)
        && Pow16(5) == 16 * Pow16(4);
  }

  /** Reading one written code point. */
  lemma RuneReads(r: Rune, q: Rune, ascii: bool, more: seq<Rune>, text: seq<Rune>)
    requires IsQuote(q) && Scalar(r)
    ensures ScanBody(PLAIN, q, false, ReprRune(r, q, ascii) + more, text, false) ==
      ScanBody(PLAIN, q, false, more, text + [r], false)
  {
    hide Hex;
    Powers();
    var e := ReprRune(r, q, ascii);
    var src := e + more;
    if |e| > 1 {
      assert src[0] == BACKSLASH;
      assert src[1..] == e[1..] + more;
      EscapeReads(r, q, ascii, more);
    } else {
      assert src[1..] == more;
    }
  }

  lemma EscapeReads(r: Rune, q: Rune, ascii: bool, more: seq<Rune>)
    requires IsQuote(q) && Scalar(r) && |ReprRune(r, q, ascii)| > 1
    ensures DecodeEscape(ReprRune(r, q, ascii)[1..] + more, PLAIN) == Scan([r], more, false)
  {
    hide Hex;
    Powers();
    var e := ReprRune(r, q, ascii);
    if |e| == 2 {
      assert (e[1..] + more)[1..] == more;
    } else {
      var n := |e| - 2;
      assert e[1..] == [e[1]] + Hex(r, n);
      HexEscapeReads(r, n, e[1], more);
    }
  }

  predicate Scalars(s: seq<Rune>) {
    forall i :: 0 <= i < |s| ==> Scalar(s[i])
  }

  lemma CloseReads(q: Rune, tail: seq<Rune>, text: seq<Rune>)
    requires IsQuote(q)
    ensures ScanBody(PLAIN, q, false, [q] + tail, text, false) == Scan(text, tail, false)
  {
    assert ([q] + tail)[1..] == tail;
  }

  lemma {:induction false} BodyReads(s: seq<Rune>, q: Rune, ascii: bool, tail: seq<Rune>, text: seq<Rune>)
    requires IsQuote(q) && Scalars(s)
    ensures ScanBody(PLAIN, q, false, ReprBody(s, q, ascii) + [q] + tail, text, false) == Scan(text + s, tail, false)
    decreases s
  {
    hide ReprRune, ScanBody;
    if s == [] {
      assert ReprBody(s, q, ascii) + [q] + tail == [q] + tail;
      CloseReads(q, tail, text);
      assert text + s == text;
    } else {
      var more := ReprBody(s[1..], q, ascii) + [q] + tail;
      assert ReprBody(s, q, ascii) + [q] + tail == ReprRune(s[0], q, ascii) + more;
      RuneReads(s[0], q, ascii, more, text);
      BodyReads(s[1..], q, ascii, tail, text + [s[0]]);
      assert text + [s[0]] + s[1..] == text + s;
    }
  }

  /** An escaped body does not start with the quote. */
  lemma BodyStart(s: seq<Rune>, q: Rune, ascii: bool)
    requires s != []
    ensures ReprBody(s, q, ascii) != [] && (IsQuote(q) ==> ReprBody(s, q, ascii)[0] != q)
  {
    assert |ReprRune(s[0], q, ascii)| > 0;
    assert ReprBody(s, q, ascii)[0] == ReprRune(s[0], q, ascii)[0];
  }

  /** An empty string in front of its own quote: together they open a triple-quoted
      literal. */
  predicate RunsOn(s: seq<Rune>, tail: seq<Rune>) {
    s == [] && tail != [] && tail[0] == ReprQuote(s)
  }

  /** Reading what `repr` writes gives the string back, without a diagnostic and
      with exactly the literal consumed, but for that one exception. */
  lemma ReprReads(s: seq<Rune>, ascii: bool, tail: seq<Rune>)
    requires Scalars(s)
    ensures ScanString(PLAIN, Repr(s, ascii) + tail) == Scan(s, tail, false) <==> !RunsOn(s, tail)
  {
    var q := ReprQuote(s);
    var src := Repr(s, ascii) + tail;
    var body := ReprBody(s, q, ascii) + [q] + tail;
    assert src == [q] + body;
    assert src[1..] == body;
    if s == [] {
      assert body == [q] + tail;
    } else {
      BodyStart(s, q, ascii);
      assert src[1] == ReprBody(s, q, ascii)[0];
    }
    BodyReads(s, q, ascii, tail, []);
    assert [] + s == s;
  }

  /** So `repr` is injective, in either setting. */
  lemma ReprInjective(s: seq<Rune>, t: seq<Rune>, ascii: bool)
    requires Scalars(s) && Scalars(t) && Repr(s, ascii) == Repr(t, ascii)
    ensures s == t
  {
    ReprReads(s, ascii, []);
    ReprReads(t, ascii, []);
    assert Repr(s, ascii) + [] == Repr(s, ascii) && Repr(t, ascii) + [] == Repr(t, ascii);
  }

  /** The exception: `''` and a quote behind it read as an unterminated literal. */
  lemma EmptyBeforeQuote(ascii: bool)
    ensures ScanString(PLAIN, Repr([], ascii) + [SINGLE]).bad
  {
    assert Repr([], ascii) + [SINGLE] == [SINGLE, SINGLE, SINGLE];
    assert [SINGLE, SINGLE, SINGLE][3..] == [];
  }

  /** With `ascii` only ASCII is written, and never a raw line end or control character. */
  lemma {:induction false} ReprPrintable(s: seq<Rune>, q: Rune, ascii: bool)
    requires IsQuote(q)
    ensures forall i :: 0 <= i < |ReprBody(s, q, ascii)| ==>
      var c := ReprBody(s, q, ascii)[i]; 0x20 <= c != 0x7f && (ascii ==> c < 0x7f)
    decreases s
  {
    if s != [] {
      ReprPrintable(s[1..], q, ascii);
      RunePrintable(s[0], q, ascii);
    }
  }

  lemma RunePrintable(r: Rune, q: Rune, ascii: bool)
    requires IsQuote(q)
    ensures forall i :: 0 <= i < |ReprRune(r, q, ascii)| ==>
      var c := ReprRune(r, q, ascii)[i]; 0x20 <= c != 0x7f && (ascii ==> c < 0x7f)
  {
    HexPrintable(r, 2);
    HexPrintable(r, 4);
    HexPrintable(r, 8);
  }

  lemma {:induction false} HexPrintable(v: nat, n: nat)
    ensures forall i :: 0 <= i < n ==> 48 <= Hex(v, n)[i] <= 102
    decreases n
  {
    if n > 0 {
      HexPrintable(v / 16, n - 1);
    }
  }

  // The writer's loop.

  method WriteRepr(s: seq<Rune>, ascii: bool) returns (out: seq<Rune>)
    ensures out == Repr(s, ascii)
  {
    var q := SINGLE;
    if SINGLE in s && DOUBLE !in s {
      q := DOUBLE;
    }
    out := [q];
    for i := 0 to |s|
      invariant out + ReprBody(s[i..], q, ascii) == [q] + ReprBody(s, q, ascii)
    {
      assert s[i..][0] == s[i] && s[i..][1..] == s[i + 1..];
      out := out + ReprRune(s[i], q, ascii);
    }
    out := out + [q];
  }
}
