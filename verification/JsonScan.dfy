/**
  What the oversized-record scanner accepts, without its buffers: functions from
  the unread bytes (the first is the lookahead byte) to the bytes left when the
  phrase has been read, or None.  The last byte of the source can be looked at but
  not consumed, because consuming it reads past the end.

  ScanValueExact says that these functions decide the grammar of JsonGrammar.
 */
module JsonScan {
  import opened Wrappers
  import opened JsonGrammar

  const MAX_DEPTH: nat := 10000

  function Take(s: seq<byte>): (r: Option<seq<byte>>)
    ensures r.Some? ==> |r.value| == |s| - 1 && r.value != [] && s == [s[0]] + r.value && s[0] != LF
  {
    if |s| < 2 || s[0] == LF then None else Some(s[1..])
  }

  function Want(s: seq<byte>, b: byte): (r: Option<seq<byte>>)
    ensures r.Some? ==> r.value != [] && s == [b] + r.value && b != LF
  {
    if s == [] || s[0] != b then None else Take(s)
  }

  function WantAll(s: seq<byte>, text: seq<byte>): (r: Option<seq<byte>>)
    ensures r.Some? ==> |s| == |text| + |r.value| && (s != [] ==> r.value != [])
    ensures r.Some? ==> s == text + r.value
  {
    if text == [] then Some(s) else
    match Want(s, text[0])
    case None => None
    case Some(s1) => assert text == [text[0]] + text[1..]; WantAll(s1, text[1..])
  }

  function Space(s: seq<byte>): (r: Option<seq<byte>>)
    ensures r.Some? ==> r.value != [] && |r.value| <= |s| && !IsWs(r.value[0])
  {
    if s == [] then None else if IsWs(s[0]) then Space(s[1..]) else Some(s)
  }

  function HexDigit(s: seq<byte>): (r: Option<seq<byte>>)
    ensures r.Some? ==> |r.value| == |s| - 1 && r.value != [] && s == [s[0]] + r.value && IsHex(s[0])
  {
    if s == [] || !IsHex(s[0]) then None else Take(s)
  }

  function Hex(s: seq<byte>, n: nat): (r: Option<seq<byte>>)
    ensures r.Some? ==> |r.value| == |s| - n && (s != [] ==> r.value != [])
  {
    if n == 0 then Some(s) else
    match Hex(s, n - 1) case None => None case Some(s1) => HexDigit(s1)
  }

  /** An escape after its backslash. */
  function ScanEscape(s: seq<byte>): (r: Option<seq<byte>>)
    ensures r.Some? ==> r.value != [] && |r.value| < |s|
  {
    if s == [] then None
    else if IsEscape(s[0]) then Take(s)
    else if s[0] != LOWER_U then None
    else match Take(s) case None => None case Some(s1) => Hex(s1, 4)
  }

  /** One character of a string other than the closing quotation mark. */
  function ScanChar(s: seq<byte>): (r: Option<seq<byte>>)
    ensures r.Some? ==> r.value != [] && |r.value| < |s|
  {
    if s == [] || s[0] == QUOTE || s[0] < 0x20 then None
    else if s[0] != BACKSLASH then Take(s)
    else match Take(s) case None => None case Some(s1) => ScanEscape(s1)
  }

  function Chars(s: seq<byte>): (r: Option<seq<byte>>)
    ensures r.Some? ==> r.value != [] && |r.value| < |s|
    decreases |s|
  {
    if s == [] then None
    else if s[0] == QUOTE then Take(s)
    else match ScanChar(s)
      case None => None
      case Some(s1) => Chars(s1)
  }

  function ScanString(s: seq<byte>): (r: Option<seq<byte>>)
    ensures r.Some? ==> r.value != [] && |r.value| < |s|
  {
    match Want(s, QUOTE)
    case None => None
    case Some(s1) => Chars(s1)
  }

  function DigitRun(s: seq<byte>): (r: Option<seq<byte>>)
    ensures r.Some? ==> r.value != [] && |r.value| <= |s| && !IsDigit(r.value[0])
  {
    if s == [] then None else if IsDigit(s[0]) then DigitRun(s[1..]) else Some(s)
  }

  function Digits(s: seq<byte>): (r: Option<seq<byte>>)
    ensures r.Some? ==> r.value != [] && |r.value| < |s| && !IsDigit(r.value[0])
  {
    if s == [] || !IsDigit(s[0]) then None else DigitRun(s[1..])
  }

  function Whole(s: seq<byte>): (r: Option<seq<byte>>)
    ensures r.Some? ==> r.value != [] && |r.value| < |s|
  {
    if s == [] then None else if s[0] == ZERO then Take(s) else Digits(s)
  }

  function Fraction(s: seq<byte>): (r: Option<seq<byte>>)
    ensures r.Some? ==> r.value != [] && |r.value| <= |s|
  {
    if s == [] then None else
    if s[0] != DOT then Some(s) else
    match Take(s) case None => None case Some(s1) => Digits(s1)
  }

  /** The digits of an exponent and their sign. */
  function Power(s: seq<byte>): (r: Option<seq<byte>>)
    ensures r.Some? ==> r.value != [] && |r.value| < |s|
  {
    if s == [] then None else
    if s[0] != PLUS && s[0] != MINUS then Digits(s) else
    match Take(s) case None => None case Some(s1) => Digits(s1)
  }

  function Exp(s: seq<byte>): (r: Option<seq<byte>>)
    ensures r.Some? ==> r.value != [] && |r.value| <= |s|
  {
    if s == [] then None else
    if s[0] != LOWER_E && s[0] != UPPER_E then Some(s) else
    match Take(s) case None => None case Some(s1) => Power(s1)
  }

  function FractionExp(s: seq<byte>): (r: Option<seq<byte>>)
    ensures r.Some? ==> r.value != [] && |r.value| <= |s|
  {
    match Fraction(s) case None => None case Some(s1) => Exp(s1)
  }

  function Unsigned(s: seq<byte>): (r: Option<seq<byte>>)
    ensures r.Some? ==> r.value != [] && |r.value| < |s|
  {
    match Whole(s) case None => None case Some(s1) => FractionExp(s1)
  }

  function ScanNumber(s: seq<byte>): (r: Option<seq<byte>>)
    ensures r.Some? ==> r.value != [] && |r.value| < |s|
  {
    if s == [] then None else
    if s[0] != MINUS then Unsigned(s) else
    match Take(s) case None => None case Some(s1) => Unsigned(s1)
  }

  function Literals(b: byte): Option<Literal>
  {
    if b == 0x74 then Some(True) else if b == 0x66 then Some(False) else if b == 0x6E then Some(Null) else None
  }

  /** Space, a colon, space. */
  function Colon(s: seq<byte>): (r: Option<seq<byte>>)
    ensures r.Some? ==> r.value != [] && |r.value| < |s|
  {
    match Space(s)
    case None => None
    case Some(s1) => match Want(s1, COLON) case None => None case Some(s2) => Space(s2)
  }

  /** A comma, space. */
  function Comma(s: seq<byte>): (r: Option<seq<byte>>)
    ensures r.Some? ==> r.value != [] && |r.value| < |s|
  {
    match Want(s, COMMA) case None => None case Some(s1) => Space(s1)
  }

  function ScanLabel(s: seq<byte>, obj: bool): (r: Option<seq<byte>>)
    ensures r.Some? ==> |r.value| <= |s| && (s != [] ==> r.value != [])
  {
    if !obj then Some(s) else
    match ScanString(s) case None => None case Some(s1) => Colon(s1)
  }

  function ScanValue(s: seq<byte>, depth: nat): (r: Option<seq<byte>>)
    ensures r.Some? ==> r.value != [] && |r.value| < |s|
    decreases |s|, 0
  {
    if s == [] then None
    else if s[0] == QUOTE then ScanString(s)
    else if s[0] == OPEN_BRACE || s[0] == OPEN_BRACKET then
      if depth >= MAX_DEPTH then None else
      (match Take(s) case None => None case Some(s1) => ScanContainer(s1, s[0] == OPEN_BRACE, depth + 1))
    else match Literals(s[0])
      case Some(l) => WantAll(s, LiteralText(l))
      case None => ScanNumber(s)
  }

  /** A container after its opening bracket. */
  function ScanContainer(s: seq<byte>, obj: bool, depth: nat): (r: Option<seq<byte>>)
    ensures r.Some? ==> r.value != [] && |r.value| < |s|
    decreases |s|, 3
  {
    match Space(s)
    case None => None
    case Some(s1) => if s1[0] == Closing(obj) then Take(s1) else ScanItems(s1, obj, depth)
  }

  /** One item of a container and the space after it. */
  function ScanItem(s: seq<byte>, obj: bool, depth: nat): (r: Option<seq<byte>>)
    ensures r.Some? ==> r.value != [] && |r.value| < |s|
    decreases |s|, 1
  {
    match ScanLabel(s, obj)
    case None => None
    case Some(s1) => match ScanValue(s1, depth) case None => None case Some(s2) => Space(s2)
  }

  /** The items of a container, through its closing bracket. */
  function ScanItems(s: seq<byte>, obj: bool, depth: nat): (r: Option<seq<byte>>)
    ensures r.Some? ==> r.value != [] && |r.value| < |s|
    decreases |s|, 2
  {
    match ScanItem(s, obj, depth)
    case None => None
    case Some(s1) =>
      if s1[0] != COMMA then Want(s1, Closing(obj)) else
      match Comma(s1) case None => None case Some(s2) => ScanItems(s2, obj, depth)
  }

  lemma Assoc3(a: seq<byte>, b: seq<byte>, r: seq<byte>)
    ensures (a + b) + r == a + (b + r)
  {}

  lemma Assoc4(a: seq<byte>, b: seq<byte>, c: seq<byte>, r: seq<byte>)
    ensures (a + (b + c)) + r == a + (b + (c + r))
  {
    Assoc3(a, b + c, r);
    Assoc3(b, c, r);
  }

  lemma Assoc5(a: seq<byte>, b: seq<byte>, c: seq<byte>, d: seq<byte>, r: seq<byte>)
    ensures (a + (b + (c + d))) + r == a + (b + (c + (d + r)))
  {
    Assoc3(a, b + (c + d), r);
    Assoc4(b, c, d, r);
  }

  // Soundness: what was consumed is a phrase of the grammar.

  lemma {:induction false} SpaceSound(s: seq<byte>) returns (w: seq<byte>)
    requires Space(s).Some?
    ensures AllWs(w) && s == w + Space(s).value
  {
    if IsWs(s[0]) {
      var w1 := SpaceSound(s[1..]);
      w := [s[0]] + w1;
    } else {
      w := [];
    }
  }

  lemma {:induction false} DigitRunSound(s: seq<byte>) returns (d: seq<byte>)
    requires DigitRun(s).Some?
    ensures s == d + DigitRun(s).value && forall i :: 0 <= i < |d| ==> IsDigit(d[i])
  {
    if IsDigit(s[0]) {
      var d1 := DigitRunSound(s[1..]);
      d := [s[0]] + d1;
    } else {
      d := [];
    }
  }

  lemma DigitsSound(s: seq<byte>) returns (d: seq<byte>)
    requires Digits(s).Some?
    ensures AllDigits(d) && s == d + Digits(s).value && d[0] == s[0]
  {
    var d1 := DigitRunSound(s[1..]);
    d := [s[0]] + d1;
  }

  lemma {:induction false} HexSound(s: seq<byte>, n: nat)
    requires Hex(s, n).Some?
    ensures n <= |s| && s == s[..n] + Hex(s, n).value && forall i :: 0 <= i < n ==> IsHex(s[i])
  {
    if n > 0 {
      HexSound(s, n - 1);
      var r := Hex(s, n - 1).value;
      assert r == s[n - 1..];
      assert r[1..] == s[n..] && Hex(s, n).value == r[1..];
    }
  }

  lemma ScanCharSound(s: seq<byte>) returns (c: Char)
    requires ScanChar(s).Some?
    ensures WfChar(c) && s == CharText(c) + ScanChar(s).value
  {
    var s1 := Take(s).value;
    if s[0] != BACKSLASH {
      c := Plain(s[0]);
    } else if IsEscape(s1[0]) {
      c := Escape(s1[0]);
    } else {
      var s2 := Take(s1).value;
      HexSound(s2, 4);
      c := Unicode(s2[0], s2[1], s2[2], s2[3]);
      assert s == [BACKSLASH, LOWER_U] + s2;
      assert s2[..4] == [s2[0], s2[1], s2[2], s2[3]];
    }
  }

  lemma {:induction false} CharsSound(s: seq<byte>) returns (cs: seq<Char>)
    requires Chars(s).Some?
    ensures WfChars(cs) && s == CharsText(cs) + Chars(s).value
    decreases |s|
  {
    hide ScanChar, CharText, WfChars, CharsText;
    if s[0] == QUOTE {
      cs := [];
      NoChars();
      assert s == [QUOTE] + s[1..];
    } else {
      var c := ScanCharSound(s);
      var rest := CharsSound(ScanChar(s).value);
      cs := [c] + rest;
      CharsCons(c, rest);
      Assoc3(CharText(c), CharsText(rest), Chars(s).value);
    }
  }

  lemma NoChars()
    ensures WfChars([]) && CharsText([]) == [QUOTE]
  {}

  lemma CharsCons(c: Char, cs: seq<Char>)
    requires WfChar(c) && WfChars(cs)
    ensures WfChars([c] + cs) && CharsText([c] + cs) == CharText(c) + CharsText(cs)
  {
    assert ([c] + cs)[1..] == cs;
  }

  lemma ScanStringSound(s: seq<byte>) returns (cs: seq<Char>)
    requires ScanString(s).Some?
    ensures WfChars(cs) && s == StringText(cs) + ScanString(s).value
  {
    cs := CharsSound(Want(s, QUOTE).value);
  }

  lemma ExpSound(s: seq<byte>) returns (x: Option<Exponent>)
    requires Exp(s).Some?
    ensures x.Some? ==> WfExponent(x.value)
    ensures s == ExponentText(x) + Exp(s).value
    ensures x.None? <==> s[0] != LOWER_E && s[0] != UPPER_E
    ensures x.Some? ==> !IsDigit(Exp(s).value[0])
  {
    if s[0] != LOWER_E && s[0] != UPPER_E {
      x := None;
    } else {
      var s1 := Take(s).value;
      if s1[0] == PLUS || s1[0] == MINUS {
        var d := DigitsSound(Take(s1).value);
        x := Some(Exponent(s[0], Some(s1[0]), d));
      } else {
        var d := DigitsSound(s1);
        x := Some(Exponent(s[0], None, d));
      }
    }
  }

  lemma FractionSound(s: seq<byte>) returns (f: Option<seq<byte>>)
    requires Fraction(s).Some?
    ensures f.Some? ==> AllDigits(f.value)
    ensures s == FracText(f) + Fraction(s).value
    ensures f.None? ==> s[0] != DOT && Fraction(s).value == s
    ensures f.Some? ==> !IsDigit(Fraction(s).value[0])
  {
    if s[0] != DOT {
      f := None;
    } else {
      var d := DigitsSound(Take(s).value);
      f := Some(d);
    }
  }

  lemma WholeSound(s: seq<byte>) returns (d: seq<byte>)
    requires Whole(s).Some?
    ensures AllDigits(d) && (d[0] == ZERO ==> d == [ZERO]) && s == d + Whole(s).value
    ensures IsDigit(Whole(s).value[0]) ==> d == [ZERO]
  {
    if s[0] == ZERO {
      d := [ZERO];
    } else {
      d := DigitsSound(s);
    }
  }

  lemma UnsignedSound(s: seq<byte>) returns (n: Num)
    requires Unsigned(s).Some?
    ensures WfNum(n) && !n.negative && s == NumText(n) + Unsigned(s).value
    ensures EndsNumber(n, Unsigned(s).value[0])
  {
    var whole := WholeSound(s);
    var s1 := Whole(s).value;
    var frac := FractionSound(s1);
    var exp := ExpSound(Fraction(s1).value);
    n := Num(false, whole, frac, exp);
    Assoc4(whole, FracText(frac), ExponentText(exp), Unsigned(s).value);
    assert NumText(n) == whole + (FracText(frac) + ExponentText(exp));
  }

  lemma ScanNumberSound(s: seq<byte>) returns (n: Num)
    requires ScanNumber(s).Some?
    ensures WfNum(n) && s == NumText(n) + ScanNumber(s).value
    ensures EndsNumber(n, ScanNumber(s).value[0])
  {
    if s[0] != MINUS {
      n := UnsignedSound(s);
    } else {
      var m := UnsignedSound(Take(s).value);
      n := m.(negative := true);
      assert NumText(n) == [MINUS] + NumText(m);
    }
  }

  lemma ColonSound(s: seq<byte>) returns (w1: seq<byte>, w2: seq<byte>)
    requires Colon(s).Some?
    ensures AllWs(w1) && AllWs(w2) && s == (w1 + ([COLON] + w2)) + Colon(s).value
  {
    w1 := SpaceSound(s);
    w2 := SpaceSound(Want(Space(s).value, COLON).value);
  }

  lemma ScanLabelSound(s: seq<byte>, obj: bool) returns (l: Label)
    requires ScanLabel(s, obj).Some?
    ensures WfLabel(l, obj) && s == LabelText(l) + ScanLabel(s, obj).value
  {
    if obj {
      var cs := ScanStringSound(s);
      var w1, w2 := ColonSound(ScanString(s).value);
      l := Key(cs, w1, w2);
    } else {
      l := NoKey;
    }
  }

  lemma {:induction false} ScanValueSound(s: seq<byte>, depth: nat) returns (v: Value)
    requires ScanValue(s, depth).Some?
    ensures Wf(v) && (depth + Depth(v) <= MAX_DEPTH || Depth(v) == 0)
    ensures s == Text(v) + ScanValue(s, depth).value
    ensures Delimited(v, ScanValue(s, depth).value)
    decreases |s|, 0
  {
    if s[0] == QUOTE {
      var cs := ScanStringSound(s);
      v := Str(cs);
    } else if s[0] == OPEN_BRACE || s[0] == OPEN_BRACKET {
      v := ScanContainerSound(Take(s).value, s[0] == OPEN_BRACE, depth + 1);
    } else if Literals(s[0]).Some? {
      v := Lit(Literals(s[0]).value);
    } else {
      var n := ScanNumberSound(s);
      v := Number(n);
    }
  }

  lemma {:induction false} ScanContainerSound(s: seq<byte>, obj: bool, depth: nat) returns (v: Value)
    requires ScanContainer(s, obj, depth).Some? && 1 <= depth <= MAX_DEPTH
    ensures Wf(v) && (v.Empty? || v.Filled?) && depth + Depth(v) <= MAX_DEPTH + 1
    ensures [Opening(obj)] + s == Text(v) + ScanContainer(s, obj, depth).value
    decreases |s|, 2
  {
    var w := SpaceSound(s);
    var s1 := Space(s).value;
    ghost var r := ScanContainer(s, obj, depth).value;
    if s1[0] == Closing(obj) {
      v := Empty(obj, w);
      Assoc4([Opening(obj)], w, [Closing(obj)], r);
    } else {
      var items := ScanItemsSound(s1, obj, depth);
      v := Filled(obj, w, items);
      Assoc4([Opening(obj)], w, ItemsText(items, obj), r);
    }
  }

  lemma {:induction false} ScanItemsSound(s: seq<byte>, obj: bool, depth: nat) returns (items: Items)
    requires ScanItems(s, obj, depth).Some?
    ensures WfItems(items, obj) && (depth + ItemsDepth(items) <= MAX_DEPTH || ItemsDepth(items) == 0)
    ensures s == ItemsText(items, obj) + ScanItems(s, obj, depth).value
    decreases |s|, 1
  {
    var l := ScanLabelSound(s, obj);
    var s1 := ScanLabel(s, obj).value;
    var v := ScanValueSound(s1, depth);
    var s2 := ScanValue(s1, depth).value;
    var w := SpaceSound(s2);
    var s3 := Space(s2).value;
    ghost var r := ScanItems(s, obj, depth).value;
    if s3[0] != COMMA {
      items := One(l, v, w);
      Assoc5(LabelText(l), Text(v), w, [Closing(obj)], r);
    } else {
      var s4 := Take(s3).value;
      var w0 := SpaceSound(s4);
      var rest := ScanItemsSound(Space(s4).value, obj, depth);
      items := More(l, v, w, w0, rest);
      Assoc4([COMMA], w0, ItemsText(rest, obj), r);
      Assoc5(LabelText(l), Text(v), w, [COMMA] + (w0 + ItemsText(rest, obj)), r);
    }
  }

  // Completeness: every phrase of the grammar is consumed exactly.

  lemma {:induction false} SpaceComplete(w: seq<byte>, rest: seq<byte>)
    requires AllWs(w) && rest != [] && !IsWs(rest[0])
    ensures Space(w + rest) == Some(rest)
  {
    if w == [] {
      assert w + rest == rest;
    } else {
      assert (w + rest)[1..] == w[1..] + rest;
      SpaceComplete(w[1..], rest);
    }
  }

  lemma {:induction false} DigitRunComplete(d: seq<byte>, rest: seq<byte>)
    requires forall i :: 0 <= i < |d| ==> IsDigit(d[i])
    requires rest != [] && !IsDigit(rest[0])
    ensures DigitRun(d + rest) == Some(rest)
  {
    if d == [] {
      assert d + rest == rest;
    } else {
      assert (d + rest)[1..] == d[1..] + rest;
      DigitRunComplete(d[1..], rest);
    }
  }

  lemma DigitsComplete(d: seq<byte>, rest: seq<byte>)
    requires AllDigits(d) && rest != [] && !IsDigit(rest[0])
    ensures Digits(d + rest) == Some(rest)
  {
    assert (d + rest)[1..] == d[1..] + rest;
    DigitRunComplete(d[1..], rest);
  }

  lemma TakeComplete(b: byte, rest: seq<byte>)
    requires b != LF && rest != []
    ensures Take([b] + rest) == Some(rest)
  {
    assert ([b] + rest)[1..] == rest;
  }

  lemma {:induction false} WantAllComplete(text: seq<byte>, rest: seq<byte>)
    requires rest != [] && LF !in text
    ensures WantAll(text + rest, text) == Some(rest)
  {
    if text == [] {
      assert text + rest == rest;
    } else {
      assert text + rest == [text[0]] + (text[1..] + rest);
      TakeComplete(text[0], text[1..] + rest);
      WantAllComplete(text[1..], rest);
    }
  }

  lemma {:induction false} HexComplete(h: seq<byte>, rest: seq<byte>)
    requires rest != [] && forall i :: 0 <= i < |h| ==> IsHex(h[i])
    ensures Hex(h + rest, |h|) == Some(rest)
  {
    if h == [] {
      assert h + rest == rest;
    } else {
      var n := |h| - 1;
      assert h + rest == h[..n] + ([h[n]] + rest);
      HexComplete(h[..n], [h[n]] + rest);
      TakeComplete(h[n], rest);
    }
  }

  lemma ScanCharComplete(c: Char, rest: seq<byte>)
    requires WfChar(c) && rest != []
    ensures ScanChar(CharText(c) + rest) == Some(rest)
  {
    match c
    case Plain(b) =>
      TakeComplete(b, rest);
    case Escape(e) =>
      assert CharText(c) + rest == [BACKSLASH] + ([e] + rest);
      TakeComplete(BACKSLASH, [e] + rest);
      TakeComplete(e, rest);
    case Unicode(h0, h1, h2, h3) =>
      var h := [h0, h1, h2, h3];
      assert CharText(c) + rest == [BACKSLASH] + ([LOWER_U] + (h + rest));
      TakeComplete(BACKSLASH, [LOWER_U] + (h + rest));
      TakeComplete(LOWER_U, h + rest);
      HexComplete(h, rest);
  }

  lemma {:induction false} CharsComplete(cs: seq<Char>, rest: seq<byte>)
    requires WfChars(cs) && rest != []
    ensures Chars(CharsText(cs) + rest) == Some(rest)
  {
    if cs == [] {
      TakeComplete(QUOTE, rest);
    } else {
      var tail := CharsText(cs[1..]) + rest;
      assert CharsText(cs) + rest == CharText(cs[0]) + tail;
      ScanCharComplete(cs[0], tail);
      CharsComplete(cs[1..], rest);
    }
  }

  lemma ScanStringComplete(cs: seq<Char>, rest: seq<byte>)
    requires WfChars(cs) && rest != []
    ensures ScanString(StringText(cs) + rest) == Some(rest)
  {
    assert StringText(cs) + rest == [QUOTE] + (CharsText(cs) + rest);
    TakeComplete(QUOTE, CharsText(cs) + rest);
    CharsComplete(cs, rest);
  }

  lemma ExpComplete(x: Option<Exponent>, rest: seq<byte>)
    requires x.Some? ==> WfExponent(x.value)
    requires rest != [] && (x.None? ==> rest[0] != LOWER_E && rest[0] != UPPER_E) && (x.Some? ==> !IsDigit(rest[0]))
    ensures Exp(ExponentText(x) + rest) == Some(rest)
  {
    match x
    case None =>
      assert ExponentText(x) + rest == rest;
    case Some(e) =>
      DigitsComplete(e.digits, rest);
      if e.sign.Some? {
        var tail := [e.sign.value] + (e.digits + rest);
        assert ExponentText(x) + rest == [e.e] + tail;
        TakeComplete(e.e, tail);
        TakeComplete(e.sign.value, e.digits + rest);
      } else {
        assert ExponentText(x) + rest == [e.e] + (e.digits + rest);
        TakeComplete(e.e, e.digits + rest);
      }
  }

  lemma FractionComplete(f: Option<seq<byte>>, rest: seq<byte>)
    requires f.Some? ==> AllDigits(f.value)
    requires rest != [] && (f.None? ==> rest[0] != DOT) && (f.Some? ==> !IsDigit(rest[0]))
    ensures Fraction(FracText(f) + rest) == Some(rest)
  {
    match f
    case None =>
      assert FracText(f) + rest == rest;
    case Some(d) =>
      assert FracText(f) + rest == [DOT] + (d + rest);
      TakeComplete(DOT, d + rest);
      DigitsComplete(d, rest);
  }

  lemma WholeComplete(d: seq<byte>, rest: seq<byte>)
    requires AllDigits(d) && (d[0] == ZERO ==> d == [ZERO])
    requires rest != [] && (IsDigit(rest[0]) ==> d == [ZERO])
    ensures Whole(d + rest) == Some(rest)
  {
    if d[0] == ZERO {
      TakeComplete(ZERO, rest);
    } else {
      DigitsComplete(d, rest);
    }
  }

  lemma UnsignedComplete(n: Num, rest: seq<byte>)
    requires WfNum(n) && rest != [] && EndsNumber(n, rest[0]) && !n.negative
    ensures Unsigned(NumText(n) + rest) == Some(rest)
  {
    var s2 := ExponentText(n.exp) + rest;
    var s1 := FracText(n.frac) + s2;
    assert NumText(n) + rest == n.whole + s1;
    WholeComplete(n.whole, s1);
    FractionComplete(n.frac, s2);
    ExpComplete(n.exp, rest);
  }

  lemma ScanNumberComplete(n: Num, rest: seq<byte>)
    requires WfNum(n) && rest != [] && EndsNumber(n, rest[0])
    ensures ScanNumber(NumText(n) + rest) == Some(rest)
  {
    var m := n.(negative := false);
    UnsignedComplete(m, rest);
    if n.negative {
      assert NumText(n) == [MINUS] + NumText(m);
      Assoc3([MINUS], NumText(m), rest);
      TakeComplete(MINUS, NumText(m) + rest);
    } else {
      assert n == m && NumText(m)[0] == n.whole[0];
    }
  }

  lemma ColonComplete(w1: seq<byte>, w2: seq<byte>, rest: seq<byte>)
    requires AllWs(w1) && AllWs(w2) && rest != [] && !IsWs(rest[0])
    ensures Colon((w1 + ([COLON] + w2)) + rest) == Some(rest)
  {
    var s2 := w2 + rest;
    assert (w1 + ([COLON] + w2)) + rest == w1 + ([COLON] + s2);
    SpaceComplete(w1, [COLON] + s2);
    TakeComplete(COLON, s2);
    SpaceComplete(w2, rest);
  }

  lemma ScanLabelComplete(l: Label, obj: bool, rest: seq<byte>)
    requires WfLabel(l, obj) && rest != [] && !IsWs(rest[0])
    ensures ScanLabel(LabelText(l) + rest, obj) == Some(rest)
  {
    match l
    case NoKey =>
      assert LabelText(l) + rest == rest;
    case Key(cs, w1, w2) =>
      var s1 := (w1 + ([COLON] + w2)) + rest;
      assert LabelText(l) + rest == StringText(cs) + s1;
      ScanStringComplete(cs, s1);
      ColonComplete(w1, w2, rest);
  }

  /** The first byte of a value decides which kind of value it is. */
  lemma FirstByte(v: Value)
    requires Wf(v)
    ensures Text(v) != [] && !IsWs(Text(v)[0]) && Text(v)[0] != CLOSE_BRACE && Text(v)[0] != CLOSE_BRACKET
    ensures v.Str? <==> Text(v)[0] == QUOTE
    ensures v.Empty? || v.Filled? <==> Text(v)[0] == OPEN_BRACE || Text(v)[0] == OPEN_BRACKET
    ensures v.Lit? <==> Literals(Text(v)[0]) == Some(if v.Lit? then v.lit else True)
    ensures v.Number? ==> Literals(Text(v)[0]).None?
  {
    if v.Number? {
      assert Text(v)[0] == MINUS || IsDigit(Text(v)[0]);
    }
  }

  lemma FirstItemByte(items: Items, obj: bool)
    requires WfItems(items, obj)
    ensures ItemsText(items, obj) != []
    ensures !IsWs(ItemsText(items, obj)[0]) && ItemsText(items, obj)[0] != Closing(obj)
  {
    FirstByte(items.v);
    if items.lab.NoKey? {
      assert ItemsText(items, obj)[0] == Text(items.v)[0];
    } else {
      assert ItemsText(items, obj)[0] == QUOTE;
    }
  }

  lemma {:induction false} ScanValueComplete(v: Value, depth: nat, rest: seq<byte>)
    requires Wf(v) && Delimited(v, rest) && (depth + Depth(v) <= MAX_DEPTH || Depth(v) == 0)
    ensures ScanValue(Text(v) + rest, depth) == Some(rest)
    decreases v, 1
  {
    FirstByte(v);
    var s := Text(v) + rest;
    assert s[0] == Text(v)[0];
    match v
    case Str(cs) =>
      ScanStringComplete(cs, rest);
    case Number(n) =>
      ScanNumberComplete(n, rest);
    case Lit(l) =>
      WantAllComplete(LiteralText(l), rest);
    case Empty(obj, w) =>
      ScanContainerComplete(v, depth + 1, rest);
    case Filled(obj, w, items) =>
      ScanContainerComplete(v, depth + 1, rest);
  }

  lemma {:induction false} ScanContainerComplete(v: Value, depth: nat, rest: seq<byte>)
    requires Wf(v) && (v.Empty? || v.Filled?) && rest != [] && depth + Depth(v) <= MAX_DEPTH + 1
    ensures Take(Text(v) + rest).Some?
    ensures ScanContainer(Take(Text(v) + rest).value, v.obj, depth) == Some(rest)
    decreases v, 0
  {
    var inner := if v.Empty? then [Closing(v.obj)] else ItemsText(v.items, v.obj);
    var s1 := inner + rest;
    Assoc4([Opening(v.obj)], v.ws, inner, rest);
    TakeComplete(Opening(v.obj), v.ws + s1);
    if v.Empty? {
      SpaceComplete(v.ws, s1);
      TakeComplete(Closing(v.obj), rest);
    } else {
      FirstItemByte(v.items, v.obj);
      SpaceComplete(v.ws, s1);
      ScanItemsComplete(v.items, v.obj, depth, rest);
    }
  }

  /** What separates items cannot extend a number. */
  lemma SeparatorDelimits(v: Value, rest: seq<byte>)
    requires rest != [] && (IsWs(rest[0]) || rest[0] == COMMA || rest[0] == CLOSE_BRACE || rest[0] == CLOSE_BRACKET)
    ensures Delimited(v, rest)
  {}

  lemma {:induction false} ScanItemComplete(items: Items, obj: bool, depth: nat, s3: seq<byte>)
    requires WfItems(items, obj) && (depth + Depth(items.v) <= MAX_DEPTH || Depth(items.v) == 0)
    requires s3 != [] && (s3[0] == COMMA || s3[0] == Closing(obj))
    ensures ScanItem(LabelText(items.lab) + (Text(items.v) + (items.after + s3)), obj, depth) == Some(s3)
    decreases items, 2
  {
    var s2 := items.after + s3;
    var s1 := Text(items.v) + s2;
    assert ScanLabel(LabelText(items.lab) + s1, obj) == Some(s1) by {
      FirstByte(items.v);
      ScanLabelComplete(items.lab, obj, s1);
    }
    assert ScanValue(s1, depth) == Some(s2) by {
      SeparatorDelimits(items.v, s2);
      ScanValueComplete(items.v, depth, s2);
    }
    SpaceComplete(items.after, s3);
  }

  lemma {:induction false} ScanItemsComplete(items: Items, obj: bool, depth: nat, rest: seq<byte>)
    requires WfItems(items, obj) && rest != [] && (depth + ItemsDepth(items) <= MAX_DEPTH || ItemsDepth(items) == 0)
    ensures ScanItems(ItemsText(items, obj) + rest, obj, depth) == Some(rest)
    decreases items, 3
  {
    var sep := if items.One? then [Closing(obj)] else [COMMA] + (items.before + ItemsText(items.rest, obj));
    Assoc5(LabelText(items.lab), Text(items.v), items.after, sep, rest);
    ScanItemComplete(items, obj, depth, sep + rest);
    if items.One? {
      TakeComplete(Closing(obj), rest);
    } else {
      var s5 := ItemsText(items.rest, obj) + rest;
      Assoc4([COMMA], items.before, ItemsText(items.rest, obj), rest);
      TakeComplete(COMMA, items.before + s5);
      FirstItemByte(items.rest, obj);
      SpaceComplete(items.before, s5);
      ScanItemsComplete(items.rest, obj, depth, rest);
    }
  }

  /** A value is accepted, leaving rest, exactly when it is a phrase of the grammar. */
  lemma ScanValueExact(s: seq<byte>, depth: nat, rest: seq<byte>)
    requires depth <= 10000
    ensures ScanValue(s, depth) == Some(rest) <==>
            exists v :: Wf(v) && depth + Depth(v) <= 10000 && s == Text(v) + rest && Delimited(v, rest)
  {
    if ScanValue(s, depth) == Some(rest) {
      var v := ScanValueSound(s, depth);
      assert Wf(v) && s == Text(v) + rest;
    }
    forall v | Wf(v) && depth + Depth(v) <= MAX_DEPTH && s == Text(v) + rest && Delimited(v, rest)
      ensures ScanValue(s, depth) == Some(rest)
    {
      ScanValueComplete(v, depth, rest);
    }
  }
}
