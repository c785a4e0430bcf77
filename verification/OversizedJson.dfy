/**
  The streaming validator of one oversized JSONL record: a cursor over a byte
  source with one byte of lookahead, an optional capture buffer and a budget for
  captured bytes.  Every method refines the buffer-free scanner of JsonScan:
  Follow says what reading a phrase does to the lookahead and the budget, and
  Valid ties the capture buffer to the part of the input it was read from.
 */
module OversizedJson {
  import opened Wrappers
  import opened JsonGrammar
  import opened JsonScan

  datatype Failure = NoFailure | InvalidJson | MetadataBudget | EndOfInput

  /** What a cursor can still do; capturing since a position.  Failure is final. */
  datatype View = Failed | Live(rest: seq<byte>, since: Option<nat>, budget: nat)

  function Rest(v: View): seq<byte> { if v.Live? then v.rest else [] }

  /** The view after reading a phrase that leaves r. */
  function Follow(v: View, r: Option<seq<byte>>): (w: View)
    ensures w.Live? ==> v.Live? && r.Some? && w.rest == r.value && w.since == v.since
    ensures |Rest(w)| <= |Rest(v)|
  {
    if v.Failed? || r.None? || |r.value| > |v.rest| then Failed else
    var n := |v.rest| - |r.value|;
    if v.since.None? then v.(rest := r.value)
    else if n > v.budget then Failed
    else Live(r.value, v.since, v.budget - n)
  }

  /** Reading one phrase and then another is reading both at once. */
  lemma FollowTwice(v: View, r1: Option<seq<byte>>, r2: Option<seq<byte>>)
    requires r1.None? ==> r2.None?
    requires r1.Some? && r2.Some? && v.Live? ==> |r2.value| <= |r1.value| <= |v.rest|
    ensures Follow(Follow(v, r1), r2) == Follow(v, r2)
  {}

  lemma SpaceStep(v: View)
    requires v.Live? && v.rest != [] && IsWs(v.rest[0])
    ensures var w := Follow(v, Take(v.rest)); Follow(w, Space(Rest(w))) == Follow(v, Space(v.rest))
  {
    if Take(v.rest).Some? {
      FollowTwice(v, Take(v.rest), Space(v.rest));
    } else {
      assert v.rest[1..] == [];
    }
  }

  lemma DigitStep(v: View)
    requires v.Live? && v.rest != [] && IsDigit(v.rest[0])
    ensures var w := Follow(v, Take(v.rest)); Follow(w, DigitRun(Rest(w))) == Follow(v, DigitRun(v.rest))
    ensures Digits(v.rest) == DigitRun(v.rest)
  {
    if Take(v.rest).Some? {
      FollowTwice(v, Take(v.rest), DigitRun(v.rest));
    } else {
      assert v.rest[1..] == [];
    }
  }

  lemma ItemParts(v: View, obj: bool, depth: nat)
    ensures var w := Follow(v, ScanLabel(Rest(v), obj));
            var x := Follow(w, ScanValue(Rest(w), depth));
            Follow(x, Space(Rest(x))) == Follow(v, ScanItem(Rest(v), obj, depth))
  {
    var lab, item := ScanLabel(Rest(v), obj), ScanItem(Rest(v), obj, depth);
    FollowTwice(v, lab, item);
    var w := Follow(v, lab);
    if w.Live? {
      FollowTwice(w, ScanValue(w.rest, depth), item);
    }
  }

  /** After an item, either the container closes or the remaining items follow. */
  lemma ItemsStep(v: View, obj: bool, depth: nat)
    requires v.Live?
    ensures var w := Follow(v, ScanItem(v.rest, obj, depth));
            var x := Follow(w, Comma(Rest(w)));
            && (w.Live? && w.rest[0] == COMMA ==>
                  Follow(x, ScanItems(Rest(x), obj, depth)) == Follow(v, ScanItems(v.rest, obj, depth)))
            && (w.Live? && w.rest[0] != COMMA ==>
                  Follow(w, Want(w.rest, Closing(obj))) == Follow(v, ScanItems(v.rest, obj, depth)))
            && (w.Failed? ==> Follow(v, ScanItems(v.rest, obj, depth)) == Failed)
  {
    var item, all := ScanItem(v.rest, obj, depth), ScanItems(v.rest, obj, depth);
    FollowTwice(v, item, all);
    var w := Follow(v, item);
    if w.Live? && w.rest[0] == COMMA {
      FollowTwice(w, Comma(w.rest), all);
    }
  }

  lemma Captured(data: seq<byte>, since: nat, pos: nat)
    requires since <= pos < |data|
    ensures data[since..pos] + [data[pos]] == data[since..pos + 1]
  {}

  lemma Dropped(data: seq<byte>, pos: nat)
    requires pos < |data|
    ensures data[pos..][1..] == data[pos + 1..]
  {}

  /** The cursor reads data, which is the buffered prefix followed by the stream. */
  class Cursor {
    const data: seq<byte>
    var pos: nat
    var next: byte
    var err: Failure
    var capture: Option<seq<byte>>
    var budget: nat
    ghost var since: nat

    ghost predicate Valid()
      reads this
    {
      err.NoFailure? ==>
        && pos < |data|
        && next == data[pos]
        && (capture.Some? ==> since <= pos && capture.value == data[since..pos])
    }

    ghost function View(): (v: View)
      requires Valid()
      reads this
      ensures v.Live? <==> err.NoFailure?
      ensures v.Live? ==> v.rest != [] && v.rest[0] == next && v.budget == budget && (v.since.Some? <==> capture.Some?)
    {
      if err.NoFailure? then Live(data[pos..], if capture.Some? then Some(since) else None, budget) else Failed
    }

    constructor (data: seq<byte>, budget: nat)
      ensures Valid() && this.data == data
      ensures View() == if data == [] then Failed else Live(data, None, budget)
    {
      this.data, this.budget, pos, capture, since := data, budget, 0, None, 0;
      if data == [] {
        next, err := 0, EndOfInput;
      } else {
        next, err := data[0], NoFailure;
      }
    }

    method Advance()
      requires err.NoFailure? && pos < |data|
      modifies `next, `pos, `err
      ensures pos == old(pos) + 1
      ensures if pos < |data| then err.NoFailure? && next == data[pos] else !err.NoFailure?
    {
      pos := pos + 1;
      if pos < |data| {
        next := data[pos];
      } else {
        next, err := 0, EndOfInput;
      }
    }

    method Fail()
      modifies `err
      ensures Valid() && View() == Failed
    {
      if err.NoFailure? { err := InvalidJson; }
    }

    method TakeByte()
      requires Valid()
      modifies `next, `pos, `err, `capture, `budget
      ensures Valid()
      ensures View() == Follow(old(View()), Take(Rest(old(View()))))
    {
      if !err.NoFailure? { return; }
      if next == LF {
        Fail();
        return;
      }
      if capture.Some? {
        if budget == 0 {
          err := MetadataBudget;
          return;
        }
        budget := budget - 1;
        capture := Some(capture.value + [next]);
        Captured(data, since, pos);
      }
      Dropped(data, pos);
      Advance();
    }

    method WantByte(b: byte)
      requires Valid()
      modifies `next, `pos, `err, `capture, `budget
      ensures Valid()
      ensures View() == Follow(old(View()), Want(Rest(old(View())), b))
    {
      hide View;
      hide Valid;
      if next != b {
        Fail();
        return;
      }
      TakeByte();
    }

    /** Starts or restarts the capture buffer. */
    method StartCapture()
      requires Valid()
      modifies `capture, `since
      ensures Valid()
      ensures View() == if old(View()).Failed? then Failed
                        else old(View()).(since := Some(|data| - |old(View()).rest|))
    {
      capture, since := Some([]), pos;
    }

    method StopCapture()
      requires Valid()
      modifies `capture
      ensures Valid()
      ensures View() == if old(View()).Failed? then Failed else old(View()).(since := None)
    {
      capture := None;
    }

    method SkipSpace()
      requires Valid()
      modifies `next, `pos, `err, `capture, `budget
      ensures Valid()
      ensures View() == Follow(old(View()), Space(Rest(old(View()))))
    {
      hide View;
      hide Valid;
      ghost var goal := Follow(View(), Space(Rest(View())));
      while err.NoFailure? && IsWs(next)
        invariant Valid()
        invariant Follow(View(), Space(Rest(View()))) == goal
        decreases |Rest(View())|
      {
        ghost var v := View();
        TakeByte();
        SpaceStep(v);
      }
    }

    method ReadHexDigit()
      requires Valid()
      modifies `next, `pos, `err, `capture, `budget
      ensures Valid()
      ensures View() == Follow(old(View()), HexDigit(Rest(old(View()))))
    {
      hide View;
      hide Valid;
      if !IsHex(next) {
        Fail();
        return;
      }
      TakeByte();
    }

    /** A digit that is missing fails the cursor, and the remaining rounds leave it failed. */
    method ReadHex(n: nat)
      requires Valid()
      modifies `next, `pos, `err, `capture, `budget
      ensures Valid()
      ensures View() == Follow(old(View()), Hex(Rest(old(View())), n))
    {
      hide View;
      hide Valid;
      hide HexDigit;
      ghost var v := View();
      for i := 0 to n
        invariant Valid() && View() == Follow(v, Hex(Rest(v), i))
      {
        FollowTwice(v, Hex(Rest(v), i), Hex(Rest(v), i + 1));
        ReadHexDigit();
      }
    }

    method ReadEscape()
      requires Valid()
      modifies `next, `pos, `err, `capture, `budget
      ensures Valid()
      ensures View() == Follow(old(View()), ScanEscape(Rest(old(View()))))
    {
      hide View;
      hide Valid;
      hide Take;
      hide Hex;
      hide Follow;
      if IsEscape(next) {
        TakeByte();
      } else if next == LOWER_U {
        ghost var v := View();
        TakeByte();
        FollowTwice(v, Take(Rest(v)), ScanEscape(Rest(v)));
        ReadHex(4);
      } else {
        Fail();
      }
    }

    /** One character of a string that is not its closing quotation mark. */
    method ReadChar()
      requires Valid() && (err.NoFailure? ==> next != QUOTE)
      modifies `next, `pos, `err, `capture, `budget
      ensures Valid()
      ensures View() == Follow(old(View()), ScanChar(Rest(old(View()))))
    {
      hide View;
      hide Valid;
      hide Take;
      hide ScanEscape;
      hide Follow;
      if next < 0x20 {
        Fail();
      } else if next == BACKSLASH {
        ghost var v := View();
        TakeByte();
        FollowTwice(v, Take(Rest(v)), ScanChar(Rest(v)));
        ReadEscape();
      } else {
        TakeByte();
      }
    }

    method ReadString()
      requires Valid()
      modifies `next, `pos, `err, `capture, `budget
      ensures Valid()
      ensures View() == Follow(old(View()), ScanString(Rest(old(View()))))
    {
      hide View;
      hide Valid;
      hide Want;
      hide ScanChar;
      hide Follow;
      hide Take;
      ghost var v := View();
      WantByte(QUOTE);
      FollowTwice(v, Want(Rest(v), QUOTE), ScanString(Rest(v)));
      ghost var goal := Follow(View(), Chars(Rest(View())));
      while err.NoFailure?
        invariant Valid() && Follow(View(), Chars(Rest(View()))) == goal
        decreases |Rest(View())|
      {
        if next == QUOTE {
          TakeByte();
          return;
        }
        ghost var w := View();
        FollowTwice(w, ScanChar(w.rest), Chars(w.rest));
        ReadChar();
      }
    }

    method ReadDigits()
      requires Valid()
      modifies `next, `pos, `err, `capture, `budget
      ensures Valid()
      ensures View() == Follow(old(View()), Digits(Rest(old(View()))))
    {
      hide View;
      hide Valid;
      if !IsDigit(next) {
        Fail();
        return;
      }
      ghost var goal := Follow(View(), DigitRun(Rest(View())));
      while err.NoFailure? && IsDigit(next)
        invariant Valid() && Follow(View(), DigitRun(Rest(View()))) == goal
        decreases |Rest(View())|
      {
        ghost var v := View();
        TakeByte();
        DigitStep(v);
      }
    }

    method ReadFraction()
      requires Valid()
      modifies `next, `pos, `err, `capture, `budget
      ensures Valid()
      ensures View() == Follow(old(View()), Fraction(Rest(old(View()))))
    {
      hide View;
      hide Valid;
      if next == DOT {
        ghost var v := View();
        TakeByte();
        FollowTwice(v, Take(Rest(v)), Fraction(Rest(v)));
        ReadDigits();
      }
    }

    /** The digits of an exponent and their sign. */
    method ReadPower()
      requires Valid()
      modifies `next, `pos, `err, `capture, `budget
      ensures Valid()
      ensures View() == Follow(old(View()), Power(Rest(old(View()))))
    {
      hide View;
      hide Valid;
      ghost var v := View();
      if next == PLUS || next == MINUS {
        TakeByte();
        FollowTwice(v, Take(Rest(v)), Power(Rest(v)));
      }
      ReadDigits();
    }

    method ReadExponent()
      requires Valid()
      modifies `next, `pos, `err, `capture, `budget
      ensures Valid()
      ensures View() == Follow(old(View()), Exp(Rest(old(View()))))
    {
      hide View;
      hide Valid;
      if next == LOWER_E || next == UPPER_E {
        ghost var v := View();
        TakeByte();
        FollowTwice(v, Take(Rest(v)), Exp(Rest(v)));
        ReadPower();
      }
    }

    method ReadUnsigned()
      requires Valid()
      modifies `next, `pos, `err, `capture, `budget
      ensures Valid()
      ensures View() == Follow(old(View()), Unsigned(Rest(old(View()))))
    {
      hide View;
      hide Valid;
      hide Digits;
      hide Take;
      hide Fraction;
      hide Exp;
      hide Follow;
      ghost var v := View();
      if next == ZERO {
        TakeByte();
      } else {
        ReadDigits();
      }
      FollowTwice(v, Whole(Rest(v)), Unsigned(Rest(v)));
      ghost var w := View();
      ReadFraction();
      FollowTwice(w, Fraction(Rest(w)), FractionExp(Rest(w)));
      ReadExponent();
    }

    method ReadNumber()
      requires Valid()
      modifies `next, `pos, `err, `capture, `budget
      ensures Valid()
      ensures View() == Follow(old(View()), ScanNumber(Rest(old(View()))))
    {
      hide View;
      hide Valid;
      hide Unsigned;
      hide Take;
      hide Follow;
      ghost var v := View();
      if next == MINUS {
        TakeByte();
        FollowTwice(v, Take(Rest(v)), ScanNumber(Rest(v)));
      }
      ReadUnsigned();
    }

    method ReadLiteral(text: seq<byte>)
      requires Valid()
      modifies `next, `pos, `err, `capture, `budget
      ensures Valid()
      ensures View() == Follow(old(View()), WantAll(Rest(old(View())), text))
    {
      hide View;
      hide Valid;
      hide Want;
      ghost var goal := Follow(View(), WantAll(Rest(View()), text));
      for i := 0 to |text|
        invariant Valid() && Follow(View(), WantAll(Rest(View()), text[i..])) == goal
      {
        ghost var v := View();
        FollowTwice(v, Want(Rest(v), text[i]), WantAll(Rest(v), text[i..]));
        WantByte(text[i]);
        assert text[i..][1..] == text[i + 1..];
      }
    }

    method ReadColon()
      requires Valid()
      modifies `next, `pos, `err, `capture, `budget
      ensures Valid()
      ensures View() == Follow(old(View()), Colon(Rest(old(View()))))
    {
      hide View;
      hide Valid;
      hide Space;
      hide Want;
      hide Follow;
      ghost var v := View();
      SkipSpace();
      FollowTwice(v, Space(Rest(v)), Colon(Rest(v)));
      ghost var w := View();
      WantByte(COLON);
      FollowTwice(w, Want(Rest(w), COLON), if Want(Rest(w), COLON).Some? then Space(Want(Rest(w), COLON).value) else None);
      SkipSpace();
    }

    method ReadValue(depth: nat)
      requires Valid()
      modifies `next, `pos, `err, `capture, `budget
      ensures Valid()
      ensures View() == Follow(old(View()), ScanValue(Rest(old(View())), depth))
      decreases |Rest(View())|, 0
    {
      hide View;
      hide Valid;
      hide ScanString;
      hide ScanContainer;
      hide ScanNumber;
      hide WantAll;
      hide Follow;
      if !err.NoFailure? { return; }
      ghost var v := View();
      if next == QUOTE {
        ReadString();
      } else if next == OPEN_BRACE || next == OPEN_BRACKET {
        if depth >= MAX_DEPTH {
          Fail();
          return;
        }
        var obj := next == OPEN_BRACE;
        TakeByte();
        FollowTwice(v, Take(v.rest), ScanValue(v.rest, depth));
        ReadContainer(obj, depth + 1);
      } else {
        var literal := Literals(next);
        if literal.Some? {
          ReadLiteral(LiteralText(literal.value));
        } else {
          ReadNumber();
        }
      }
    }

    method ReadLabel(obj: bool)
      requires Valid()
      modifies `next, `pos, `err, `capture, `budget
      ensures Valid()
      ensures View() == Follow(old(View()), ScanLabel(Rest(old(View())), obj))
    {
      hide View;
      hide Valid;
      hide ScanString;
      hide Colon;
      if obj {
        ghost var v := View();
        ReadString();
        FollowTwice(v, ScanString(Rest(v)), ScanLabel(Rest(v), obj));
        ReadColon();
      }
    }

    method ReadItem(obj: bool, depth: nat)
      requires Valid()
      modifies `next, `pos, `err, `capture, `budget
      ensures Valid()
      ensures View() == Follow(old(View()), ScanItem(Rest(old(View())), obj, depth))
      decreases |Rest(View())|, 1
    {
      hide View;
      hide Valid;
      hide ScanLabel;
      hide ScanValue;
      hide Space;
      hide ScanItem;
      hide Follow;
      ItemParts(View(), obj, depth);
      ReadLabel(obj);
      ReadValue(depth);
      SkipSpace();
    }

    method ReadComma()
      requires Valid() && (err.NoFailure? ==> next == COMMA)
      modifies `next, `pos, `err, `capture, `budget
      ensures Valid()
      ensures View() == Follow(old(View()), Comma(Rest(old(View()))))
    {
      hide View;
      hide Valid;
      hide Space;
      hide Follow;
      ghost var v := View();
      TakeByte();
      FollowTwice(v, Take(Rest(v)), Comma(Rest(v)));
      SkipSpace();
    }

    method ReadContainer(obj: bool, depth: nat)
      requires Valid()
      modifies `next, `pos, `err, `capture, `budget
      ensures Valid()
      ensures View() == Follow(old(View()), ScanContainer(Rest(old(View())), obj, depth))
      decreases |Rest(View())|, 3
    {
      hide View;
      hide Valid;
      hide Space;
      hide ScanItems;
      hide Follow;
      ghost var start := View();
      SkipSpace();
      FollowTwice(start, Space(Rest(start)), ScanContainer(Rest(start), obj, depth));
      if next == Closing(obj) {
        TakeByte();
        return;
      }
      ReadItems(obj, depth);
    }

    method ReadItems(obj: bool, depth: nat)
      requires Valid()
      modifies `next, `pos, `err, `capture, `budget
      ensures Valid()
      ensures View() == Follow(old(View()), ScanItems(Rest(old(View())), obj, depth))
      decreases |Rest(View())|, 2
    {
      hide View;
      hide Valid;
      hide ScanItem;
      hide ScanItems;
      hide Comma;
      hide Want;
      ghost var v0 := View();
      while err.NoFailure?
        invariant Valid() && |Rest(View())| <= |Rest(v0)|
        invariant Follow(View(), ScanItems(Rest(View()), obj, depth)) == Follow(v0, ScanItems(Rest(v0), obj, depth))
        decreases |Rest(View())|
      {
        ItemsStep(View(), obj, depth);
        ReadItem(obj, depth);
        if next != COMMA {
          WantByte(Closing(obj));
          return;
        }
        ReadComma();
      }
    }
  }
}
