/**
  The JSON grammar of sections 2 to 7 of RFC 8259, as concrete syntax trees over
  bytes.  Line feed is not whitespace here, because a record is one line of a
  JSONL stream.  A tree keeps every insignificant byte, so Text is exactly the
  input it was read from; the language is the set of Texts of well-formed trees.
  This file does not mention the scanner.
 */
module JsonGrammar {
  import opened Wrappers

  const TAB: byte := 0x09
  const CR: byte := 0x0D
  const SPACE: byte := 0x20
  const QUOTE: byte := 0x22
  const PLUS: byte := 0x2B
  const COMMA: byte := 0x2C
  const MINUS: byte := 0x2D
  const DOT: byte := 0x2E
  const ZERO: byte := 0x30
  const COLON: byte := 0x3A
  const UPPER_E: byte := 0x45
  const OPEN_BRACKET: byte := 0x5B
  const BACKSLASH: byte := 0x5C
  const CLOSE_BRACKET: byte := 0x5D
  const LOWER_E: byte := 0x65
  const LOWER_U: byte := 0x75
  const OPEN_BRACE: byte := 0x7B
  const CLOSE_BRACE: byte := 0x7D

  predicate IsWs(b: byte) { b == SPACE || b == TAB || b == CR }

  predicate IsDigit(b: byte) { 0x30 <= b <= 0x39 }

  predicate IsHex(b: byte) { IsDigit(b) || 0x61 <= b <= 0x66 || 0x41 <= b <= 0x46 }

  /** The character after a backslash, other than u: " \ / b f n r t */
  predicate IsEscape(b: byte)
  {
    b == QUOTE || b == BACKSLASH || b == 0x2F || b == 0x62 || b == 0x66 || b == 0x6E || b == 0x72 || b == 0x74
  }

  predicate AllWs(s: seq<byte>) { forall i :: 0 <= i < |s| ==> IsWs(s[i]) }

  predicate AllDigits(s: seq<byte>) { |s| > 0 && forall i :: 0 <= i < |s| ==> IsDigit(s[i]) }

  // Strings (section 7)

  datatype Char = Plain(b: byte) | Escape(c: byte) | Unicode(h0: byte, h1: byte, h2: byte, h3: byte)

  predicate WfChar(c: Char)
  {
    match c
    case Plain(b) => b >= 0x20 && b != QUOTE && b != BACKSLASH
    case Escape(e) => IsEscape(e)
    case Unicode(h0, h1, h2, h3) => IsHex(h0) && IsHex(h1) && IsHex(h2) && IsHex(h3)
  }

  function CharText(c: Char): seq<byte>
  {
    match c
    case Plain(b) => [b]
    case Escape(e) => [BACKSLASH, e]
    case Unicode(h0, h1, h2, h3) => [BACKSLASH, LOWER_U, h0, h1, h2, h3]
  }

  predicate WfChars(cs: seq<Char>) { forall i :: 0 <= i < |cs| ==> WfChar(cs[i]) }

  /** The characters of a string and its closing quotation mark. */
  function CharsText(cs: seq<Char>): seq<byte>
  {
    if cs == [] then [QUOTE] else CharText(cs[0]) + CharsText(cs[1..])
  }

  function StringText(cs: seq<Char>): seq<byte> { [QUOTE] + CharsText(cs) }

  // Numbers (section 6)

  datatype Exponent = Exponent(e: byte, sign: Option<byte>, digits: seq<byte>)

  datatype Num = Num(negative: bool, whole: seq<byte>, frac: Option<seq<byte>>, exp: Option<Exponent>)

  predicate WfExponent(x: Exponent)
  {
    && (x.e == LOWER_E || x.e == UPPER_E)
    && (x.sign.Some? ==> x.sign.value == PLUS || x.sign.value == MINUS)
    && AllDigits(x.digits)
  }

  predicate WfNum(n: Num)
  {
    && AllDigits(n.whole)
    && (n.whole[0] == ZERO ==> n.whole == [ZERO])
    && (n.frac.Some? ==> AllDigits(n.frac.value))
    && (n.exp.Some? ==> WfExponent(n.exp.value))
  }

  function ExponentText(x: Option<Exponent>): seq<byte>
  {
    match x
    case None => []
    case Some(e) => [e.e] + (if e.sign.Some? then [e.sign.value] else []) + e.digits
  }

  function FracText(f: Option<seq<byte>>): seq<byte>
  {
    match f case None => [] case Some(d) => [DOT] + d
  }

  function NumText(n: Num): seq<byte>
  {
    (if n.negative then [MINUS] else []) + (n.whole + (FracText(n.frac) + ExponentText(n.exp)))
  }

  // Values (sections 3 to 5)

  datatype Literal = True | False | Null

  /** A member of an object carries a Key, an element of an array does not. */
  datatype Label = NoKey | Key(name: seq<Char>, beforeColon: seq<byte>, afterColon: seq<byte>)

  datatype Value =
    | Str(chars: seq<Char>)
    | Number(num: Num)
    | Lit(lit: Literal)
    | Empty(obj: bool, ws: seq<byte>)
    | Filled(obj: bool, ws: seq<byte>, items: Items)

  datatype Items =
    | One(lab: Label, v: Value, after: seq<byte>)
    | More(lab: Label, v: Value, after: seq<byte>, before: seq<byte>, rest: Items)

  function LiteralText(l: Literal): seq<byte>
  {
    match l
    case True => [0x74, 0x72, 0x75, 0x65]
    case False => [0x66, 0x61, 0x6C, 0x73, 0x65]
    case Null => [0x6E, 0x75, 0x6C, 0x6C]
  }

  function Opening(obj: bool): byte { if obj then OPEN_BRACE else OPEN_BRACKET }

  function Closing(obj: bool): byte { if obj then CLOSE_BRACE else CLOSE_BRACKET }

  predicate WfLabel(l: Label, obj: bool)
  {
    && l.Key? == obj
    && (l.Key? ==> WfChars(l.name) && AllWs(l.beforeColon) && AllWs(l.afterColon))
  }

  function LabelText(l: Label): seq<byte>
  {
    match l
    case NoKey => []
    case Key(name, w1, w2) => StringText(name) + (w1 + ([COLON] + w2))
  }

  predicate Wf(v: Value)
  {
    match v
    case Str(cs) => WfChars(cs)
    case Number(n) => WfNum(n)
    case Lit(_) => true
    case Empty(_, w) => AllWs(w)
    case Filled(o, w, items) => AllWs(w) && WfItems(items, o)
  }

  predicate WfItems(items: Items, obj: bool)
  {
    && WfLabel(items.lab, obj)
    && Wf(items.v)
    && AllWs(items.after)
    && (items.More? ==> AllWs(items.before) && WfItems(items.rest, obj))
  }

  function Text(v: Value): seq<byte>
  {
    match v
    case Str(cs) => StringText(cs)
    case Number(n) => NumText(n)
    case Lit(l) => LiteralText(l)
    case Empty(o, w) => [Opening(o)] + (w + [Closing(o)])
    case Filled(o, w, items) => [Opening(o)] + (w + (ItemsText(items, o)))
  }

  /** The items of a container and its closing bracket. */
  function ItemsText(items: Items, obj: bool): seq<byte>
  {
    LabelText(items.lab) + (Text(items.v) + (items.after +
      (match items
       case One(_, _, _) => [Closing(obj)]
       case More(_, _, _, before, rest) => [COMMA] + (before + ItemsText(rest, obj)))))
  }

  function Max(a: nat, b: nat): nat { if a >= b then a else b }

  /** How deeply containers nest. */
  function Depth(v: Value): nat
  {
    match v
    case Str(_) => 0
    case Number(_) => 0
    case Lit(_) => 0
    case Empty(_, _) => 1
    case Filled(_, _, items) => 1 + ItemsDepth(items)
  }

  function ItemsDepth(items: Items): nat
  {
    match items
    case One(_, v, _) => Depth(v)
    case More(_, v, _, _, rest) => Max(Depth(v), ItemsDepth(rest))
  }

  /**
    What may follow a number when one byte of lookahead must end it: a longest
    match leaves no byte that could have extended the last part it read.
   */
  predicate EndsNumber(n: Num, next: byte)
  {
    && (n.exp.None? ==> next != LOWER_E && next != UPPER_E)
    && (n.exp.None? && n.frac.None? ==> next != DOT)
    && (IsDigit(next) ==> n.exp.None? && n.frac.None? && n.whole == [ZERO])
  }

  /** A value can be told apart from what follows it. */
  predicate Delimited(v: Value, rest: seq<byte>)
  {
    rest != [] && (v.Number? ==> EndsNumber(v.num, rest[0]))
  }

  /** The bytes of the characters of a string of ASCII. */
  function Bytes(s: string): seq<byte>
    requires forall i :: 0 <= i < |s| ==> s[i] as int < 256
  {
    seq(|s|, i requires 0 <= i < |s| => s[i] as byte)
  }

  /** The character classes and the literals, spelled out. */
  lemma Spelling()
    ensures forall b: byte :: IsWs(b) <==> b as char in " \t\r"
    ensures forall b: byte :: IsDigit(b) <==> b as char in "0123456789"
    ensures forall b: byte :: IsHex(b) <==> b as char in "0123456789abcdefABCDEF"
    ensures forall b: byte :: IsEscape(b) <==> b as char in "\"\\/bfnrt"
    ensures LiteralText(True) == Bytes("true") && LiteralText(False) == Bytes("false") && LiteralText(Null) == Bytes("null")
    ensures [Opening(true), Closing(true), Opening(false), Closing(false), COMMA, COLON] == Bytes("{}[],:")
    ensures [QUOTE, BACKSLASH, LOWER_U, PLUS, MINUS, DOT, ZERO, LOWER_E, UPPER_E, LF] == Bytes("\"\\u+-.0eE\n")
  {
    forall b: byte ensures IsDigit(b) <==> b as char in "0123456789" {
      assert forall i :: 0 <= i < 10 ==> "0123456789"[i] as int == 0x30 + i;
      if IsDigit(b) { assert "0123456789"[b as int - 0x30] == b as char; }
    }
  }
}
