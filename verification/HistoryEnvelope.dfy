/**
  The envelope scan of an oversized history record.  Only member names and the
  values of known members other than data are kept, all of them within one budget;
  a known member may occur once; the record ends at its line feed.

  Which known member a name denotes (decoding its escapes and folding its case) is
  the parameter classify, a function of the name's quoted text.
 */
module HistoryEnvelope {
  import opened Wrappers
  import opened JsonGrammar
  import opened JsonScan
  import opened OversizedJson

  datatype Field = Id | Type | Command | SessionId | Success | Error | Data

  type Classifier = seq<byte> -> Option<Field>

  const METADATA_BUDGET: nat := 65536

  // What the grammar says about an envelope

  function FieldOf(lab: Label, classify: Classifier): Option<Field>
    requires lab.Key?
  {
    classify(StringText(lab.name))
  }

  predicate Kept(f: Option<Field>) { f.Some? && f.value != Data }

  /** The captured bytes: every member name, and the value of every kept member. */
  function Charge(items: Items, classify: Classifier): nat
    requires WfItems(items, true)
  {
    |StringText(items.lab.name)| + (if FieldOf(items.lab, classify) !in {None, Some(Data)} then |Text(items.v)| else 0) +
    (if items.One? then 0 else Charge(items.rest, classify))
  }

  function Known(items: Items, classify: Classifier): set<Field>
    requires WfItems(items, true)
  {
    var f := FieldOf(items.lab, classify);
    (if f.Some? then {f.value} else {}) + (if items.One? then {} else Known(items.rest, classify))
  }

  /** No known member occurs twice. */
  predicate Unambiguous(items: Items, classify: Classifier)
    requires WfItems(items, true)
  {
    items.One? ||
    (var f := FieldOf(items.lab, classify);
     Unambiguous(items.rest, classify) && (f.Some? ==> f.value !in Known(items.rest, classify)))
  }

  /** What one member adds to the kept members. */
  function KeptOne(key: seq<byte>, value: seq<byte>, classify: Classifier): map<Field, seq<byte>>
  {
    if Kept(classify(key)) then map[classify(key).value := value] else map[]
  }

  function Kepts(items: Items, classify: Classifier): map<Field, seq<byte>>
    requires WfItems(items, true)
  {
    var here := KeptOne(StringText(items.lab.name), Text(items.v), classify);
    if items.One? then here else here + Kepts(items.rest, classify)
  }

  /** An object that the scan accepts as an envelope. */
  predicate Acceptable(v: Value, classify: Classifier)
  {
    && Wf(v) && (v.Empty? || v.Filled?) && v.obj && Depth(v) <= 10000
    && (v.Filled? ==> Unambiguous(v.items, classify) && Charge(v.items, classify) <= 65536)
  }

  function KeptFields(v: Value, classify: Classifier): map<Field, seq<byte>>
    requires Acceptable(v, classify)
  {
    if v.Filled? then Kepts(v.items, classify) else map[]
  }

  // What the scan computes

  datatype Meta = Meta(budget: nat, seen: set<Field>, fields: map<Field, seq<byte>>)

  /** Accounts for one member, from the texts of its name and value. */
  function Admit(m: Meta, key: seq<byte>, value: seq<byte>, classify: Classifier): Option<Meta>
  {
    var f := classify(key);
    var charge := |key| + (if Kept(f) then |value| else 0);
    if charge > m.budget || (f.Some? && f.value in m.seen) then None
    else Some(Meta(m.budget - charge, if f.Some? then m.seen + {f.value} else m.seen,
                   m.fields + KeptOne(key, value, classify)))
  }

  datatype Progress = Progress(rest: seq<byte>, meta: Meta)

  /** One member and the space after it. */
  function ScanMember(p: Progress, classify: Classifier): (r: Option<Progress>)
    ensures r.Some? ==> ScanItem(p.rest, true, 1) == Some(r.value.rest)
  {
    match ScanItem(p.rest, true, 1)
    case None => None
    case Some(s3) =>
      var s1 := ScanLabel(p.rest, true).value;
      var key := p.rest[..|p.rest| - |ScanString(p.rest).value|];
      var value := s1[..|s1| - |ScanValue(s1, 1).value|];
      match Admit(p.meta, key, value, classify) case None => None case Some(m) => Some(Progress(s3, m))
  }

  /** The members of an envelope, through its closing brace. */
  function ScanMembers(p: Progress, classify: Classifier): (r: Option<Progress>)
    ensures r.Some? ==> ScanItems(p.rest, true, 1) == Some(r.value.rest)
    decreases |p.rest|
  {
    match ScanMember(p, classify)
    case None => None
    case Some(q) =>
      if q.rest[0] != COMMA then ScanClose(q) else
      match Comma(q.rest) case None => None case Some(s1) => ScanMembers(q.(rest := s1), classify)
  }

  function ScanClose(p: Progress): (r: Option<Progress>)
    ensures r.Some? ==> r.value.rest != []
  {
    match Want(p.rest, CLOSE_BRACE) case None => None case Some(s1) => Some(p.(rest := s1))
  }

  function ScanBody(p: Progress, classify: Classifier): Option<Progress>
  {
    if p.rest != [] && p.rest[0] == CLOSE_BRACE then ScanClose(p) else ScanMembers(p, classify)
  }

  const NO_META := Meta(METADATA_BUDGET, {}, map[])

  /** An opening brace and the space around it. */
  function ScanOpen(s: seq<byte>): (r: Option<seq<byte>>)
    ensures r.Some? ==> r.value != [] && |r.value| < |s|
  {
    match Space(s)
    case None => None
    case Some(s1) => match Want(s1, OPEN_BRACE) case None => None case Some(s2) => Space(s2)
  }

  /** The kept members and what follows the record's line feed. */
  function ScanRecord(data: seq<byte>, classify: Classifier): Option<Progress>
  {
    match ScanOpen(data)
    case None => None
    case Some(s1) =>
      match ScanBody(Progress(s1, NO_META), classify)
      case None => None
      case Some(p) =>
        match Space(p.rest)
        case None => None
        case Some(s2) => if s2[0] == LF then Some(p.(rest := s2[1..])) else None
  }

  // The scan accepts exactly the acceptable objects

  function AdmitAll(items: Items, m: Meta, classify: Classifier): Option<Meta>
    requires WfItems(items, true)
  {
    match Admit(m, StringText(items.lab.name), Text(items.v), classify)
    case None => None
    case Some(m1) => if items.One? then Some(m1) else AdmitAll(items.rest, m1, classify)
  }

  lemma {:induction false} AdmitAllExact(items: Items, m: Meta, classify: Classifier)
    requires WfItems(items, true)
    ensures AdmitAll(items, m, classify).Some? <==>
            && Unambiguous(items, classify)
            && Known(items, classify) !! m.seen
            && Charge(items, classify) <= m.budget
    decreases items
  {
    var m1 := Admit(m, StringText(items.lab.name), Text(items.v), classify);
    if m1.Some? && items.More? {
      AdmitAllExact(items.rest, m1.value, classify);
    }
  }

  lemma AdmitFields(m: Meta, key: seq<byte>, value: seq<byte>, classify: Classifier)
    ensures var n := Admit(m, key, value, classify); n.Some? ==> n.value.fields == m.fields + KeptOne(key, value, classify)
  {}

  lemma {:induction false} AdmitAllFields(items: Items, m: Meta, classify: Classifier)
    requires WfItems(items, true) && AdmitAll(items, m, classify).Some?
    ensures AdmitAll(items, m, classify).value.fields == m.fields + Kepts(items, classify)
    decreases items
  {
    hide Admit, KeptOne, StringText, Text;
    AdmitFields(m, StringText(items.lab.name), Text(items.v), classify);
    if items.More? {
      AdmitAllFields(items.rest, Admit(m, StringText(items.lab.name), Text(items.v), classify).value, classify);
      var here, rest := KeptOne(StringText(items.lab.name), Text(items.v), classify), Kepts(items.rest, classify);
      assert (m.fields + here) + rest == m.fields + (here + rest);
    }
  }

  /** The member name that a scan delimits. */
  lemma MemberName(lab: Label, s: seq<byte>, s1: seq<byte>)
    requires WfLabel(lab, true) && s == LabelText(lab) + s1 && s1 != []
    ensures ScanString(s).Some? && s[..|s| - |ScanString(s).value|] == StringText(lab.name)
  {
    var colon := lab.beforeColon + ([COLON] + lab.afterColon);
    Assoc3(StringText(lab.name), colon, s1);
    ScanStringComplete(lab.name, colon + s1);
  }

  lemma ScanMemberTree(items: Items, p: Progress, classify: Classifier, s3: seq<byte>)
    requires WfItems(items, true) && 1 + Depth(items.v) <= MAX_DEPTH
    requires s3 != [] && (s3[0] == COMMA || s3[0] == CLOSE_BRACE)
    requires p.rest == LabelText(items.lab) + (Text(items.v) + (items.after + s3))
    ensures var m := Admit(p.meta, StringText(items.lab.name), Text(items.v), classify);
            ScanMember(p, classify) == if m.None? then None else Some(Progress(s3, m.value))
  {
    var s2 := items.after + s3;
    var s1 := Text(items.v) + s2;
    assert ScanItem(p.rest, true, 1) == Some(s3) by {
      ScanItemComplete(items, true, 1, s3);
    }
    MemberName(items.lab, p.rest, s1);
    assert ScanLabel(p.rest, true) == Some(s1) by {
      FirstByte(items.v);
      ScanLabelComplete(items.lab, true, s1);
    }
    assert s1[..|s1| - |ScanValue(s1, 1).value|] == Text(items.v) by {
      SeparatorDelimits(items.v, s2);
      ScanValueComplete(items.v, 1, s2);
    }
  }

  lemma {:induction false} ScanMembersTree(items: Items, p: Progress, classify: Classifier, r: seq<byte>)
    requires WfItems(items, true) && 1 + ItemsDepth(items) <= MAX_DEPTH && r != []
    requires p.rest == ItemsText(items, true) + r
    ensures var m := AdmitAll(items, p.meta, classify);
            ScanMembers(p, classify) == if m.None? then None else Some(Progress(r, m.value))
    decreases items
  {
    var sep := if items.One? then [CLOSE_BRACE] else [COMMA] + (items.before + ItemsText(items.rest, true));
    Assoc5(LabelText(items.lab), Text(items.v), items.after, sep, r);
    ScanMemberTree(items, p, classify, sep + r);
    var q := ScanMember(p, classify);
    if q.Some? {
      if items.One? {
        TakeComplete(CLOSE_BRACE, r);
      } else {
        var s1 := ItemsText(items.rest, true) + r;
        Assoc4([COMMA], items.before, ItemsText(items.rest, true), r);
        TakeComplete(COMMA, items.before + s1);
        FirstItemByte(items.rest, true);
        SpaceComplete(items.before, s1);
        ScanMembersTree(items.rest, q.value.(rest := s1), classify, r);
      }
    }
  }

  /** The text of a record: an object with space around it, up to the line feed. */
  predicate IsRecord(data: seq<byte>, w1: seq<byte>, v: Value, w2: seq<byte>, rest: seq<byte>)
  {
    AllWs(w1) && AllWs(w2) && data == w1 + (Text(v) + (w2 + ([LF] + rest)))
  }

  lemma ScanOpenSound(s: seq<byte>) returns (w1: seq<byte>, w: seq<byte>)
    requires ScanOpen(s).Some?
    ensures AllWs(w1) && AllWs(w) && s == w1 + ([OPEN_BRACE] + (w + ScanOpen(s).value))
  {
    w1 := SpaceSound(s);
    w := SpaceSound(Want(Space(s).value, OPEN_BRACE).value);
  }

  lemma ScanOpenComplete(w1: seq<byte>, w: seq<byte>, s: seq<byte>)
    requires AllWs(w1) && AllWs(w) && s != [] && !IsWs(s[0])
    ensures ScanOpen(w1 + ([OPEN_BRACE] + (w + s))) == Some(s)
  {
    SpaceComplete(w1, [OPEN_BRACE] + (w + s));
    TakeComplete(OPEN_BRACE, w + s);
    SpaceComplete(w, s);
  }

  lemma ScanMembersSound(s: seq<byte>, classify: Classifier) returns (items: Items)
    requires ScanMembers(Progress(s, NO_META), classify).Some?
    ensures WfItems(items, true) && 1 + ItemsDepth(items) <= MAX_DEPTH
    ensures s == ItemsText(items, true) + ScanMembers(Progress(s, NO_META), classify).value.rest
    ensures Unambiguous(items, classify) && Charge(items, classify) <= METADATA_BUDGET
    ensures ScanMembers(Progress(s, NO_META), classify).value.meta.fields == Kepts(items, classify)
  {
    hide ScanItems;
    hide ScanMembers;
    hide AdmitAll;
    hide Unambiguous;
    hide Charge;
    hide ItemsText;
    hide WfItems;
    hide ItemsDepth;
    var p := Progress(s, NO_META);
    items := ScanItemsSound(s, true, 1);
    ScanMembersTree(items, p, classify, ScanMembers(p, classify).value.rest);
    AdmitAllExact(items, NO_META, classify);
    AdmitAllFields(items, NO_META, classify);
    assert map[] + Kepts(items, classify) == Kepts(items, classify);
  }

  lemma ScanBodySound(s: seq<byte>, w: seq<byte>, classify: Classifier) returns (v: Value)
    requires AllWs(w) && ScanBody(Progress(s, NO_META), classify).Some?
    ensures Acceptable(v, classify)
    ensures [OPEN_BRACE] + (w + s) == Text(v) + ScanBody(Progress(s, NO_META), classify).value.rest
    ensures ScanBody(Progress(s, NO_META), classify).value.meta.fields == KeptFields(v, classify)
  {
    ghost var r := ScanBody(Progress(s, NO_META), classify).value.rest;
    if s != [] && s[0] == CLOSE_BRACE {
      v := Empty(true, w);
      Assoc4([OPEN_BRACE], w, [CLOSE_BRACE], r);
    } else {
      var items := ScanMembersSound(s, classify);
      v := Filled(true, w, items);
      Assoc4([OPEN_BRACE], w, ItemsText(items, true), r);
    }
  }

  lemma ScanBodyComplete(v: Value, classify: Classifier, r: seq<byte>) returns (s: seq<byte>)
    requires Acceptable(v, classify) && r != []
    ensures s != [] && !IsWs(s[0]) && Text(v) + r == [OPEN_BRACE] + (v.ws + s)
    ensures ScanBody(Progress(s, NO_META), classify).Some? && ScanBody(Progress(s, NO_META), classify).value.rest == r
  {
    var inner := if v.Empty? then [CLOSE_BRACE] else ItemsText(v.items, true);
    s := inner + r;
    Assoc4([OPEN_BRACE], v.ws, inner, r);
    if v.Empty? {
      TakeComplete(CLOSE_BRACE, r);
    } else {
      FirstItemByte(v.items, true);
      ScanMembersTree(v.items, Progress(s, NO_META), classify, r);
      AdmitAllExact(v.items, NO_META, classify);
    }
  }

  lemma ScanRecordSound(data: seq<byte>, classify: Classifier) returns (w1: seq<byte>, v: Value, w2: seq<byte>)
    requires ScanRecord(data, classify).Some?
    ensures Acceptable(v, classify) && IsRecord(data, w1, v, w2, ScanRecord(data, classify).value.rest)
    ensures ScanRecord(data, classify).value.meta.fields == KeptFields(v, classify)
  {
    hide ScanOpen;
    hide ScanBody;
    hide Space;
    hide Acceptable;
    hide KeptFields;
    hide Text;
    var w;
    w1, w := ScanOpenSound(data);
    var s := ScanOpen(data).value;
    v := ScanBodySound(s, w, classify);
    var r := ScanBody(Progress(s, NO_META), classify).value.rest;
    w2 := SpaceSound(r);
    ghost var rest := ScanRecord(data, classify).value.rest;
    assert Space(r).value == [LF] + rest;
    Assoc3(w1, [OPEN_BRACE], w + s);
  }

  lemma ScanRecordComplete(data: seq<byte>, w1: seq<byte>, v: Value, w2: seq<byte>, rest: seq<byte>, classify: Classifier)
    requires Acceptable(v, classify) && IsRecord(data, w1, v, w2, rest)
    ensures ScanRecord(data, classify).Some? && ScanRecord(data, classify).value.rest == rest
  {
    var r := w2 + ([LF] + rest);
    var s := ScanBodyComplete(v, classify, r);
    ScanOpenComplete(w1, v.ws, s);
    SpaceComplete(w2, [LF] + rest);
    assert ([LF] + rest)[1..] == rest;
  }

  /**
    A record is accepted, leaving rest, exactly when it is one acceptable object with
    space around it and a line feed.
   */
  lemma ScanRecordExact(data: seq<byte>, rest: seq<byte>, classify: Classifier)
    ensures (ScanRecord(data, classify).Some? && ScanRecord(data, classify).value.rest == rest) <==>
            exists w1, v, w2 :: Acceptable(v, classify) && IsRecord(data, w1, v, w2, rest)
  {
    if ScanRecord(data, classify).Some? && ScanRecord(data, classify).value.rest == rest {
      var w1, v, w2 := ScanRecordSound(data, classify);
      assert IsRecord(data, w1, v, w2, rest);
    }
    forall w1, v, w2 | Acceptable(v, classify) && IsRecord(data, w1, v, w2, rest)
      ensures ScanRecord(data, classify).Some? && ScanRecord(data, classify).value.rest == rest
    {
      ScanRecordComplete(data, w1, v, w2, rest, classify);
    }
  }

  /** Some member of the object has this name, by classify, and this text as its value. */
  predicate HasMember(items: Items, f: Field, value: seq<byte>, classify: Classifier)
    requires WfItems(items, true)
  {
    || (classify(StringText(items.lab.name)) == Some(f) && Text(items.v) == value)
    || (items.More? && HasMember(items.rest, f, value, classify))
  }

  /** A name that is not known has no member. */
  lemma {:induction false} MemberIsKnown(items: Items, f: Field, value: seq<byte>, classify: Classifier)
    requires WfItems(items, true) && HasMember(items, f, value, classify)
    ensures f in Known(items, classify)
  {
    if items.More? && HasMember(items.rest, f, value, classify) { MemberIsKnown(items.rest, f, value, classify); }
  }

  lemma {:induction false} KeptsExact(items: Items, classify: Classifier, f: Field, value: seq<byte>)
    requires WfItems(items, true) && Unambiguous(items, classify)
    ensures (f in Kepts(items, classify) && Kepts(items, classify)[f] == value) <==> f != Data && HasMember(items, f, value, classify)
    ensures f in Kepts(items, classify) ==> f in Known(items, classify)
  {
    hide StringText, Text;
    if items.More? {
      KeptsExact(items.rest, classify, f, value);
      if HasMember(items.rest, f, value, classify) { MemberIsKnown(items.rest, f, value, classify); }
    }
  }

  /** Of each known member other than data the fields are exactly the text of its value. */
  ghost predicate FieldsOf(fields: map<Field, seq<byte>>, v: Value, classify: Classifier)
    requires Wf(v) && (v.Filled? ==> v.obj)
  {
    forall f, value :: (f in fields && fields[f] == value) <==> v.Filled? && f != Data && HasMember(v.items, f, value, classify)
  }

  lemma KeptFieldsExact(v: Value, classify: Classifier)
    requires Acceptable(v, classify)
    ensures FieldsOf(KeptFields(v, classify), v, classify)
  {
    forall f, value
      ensures (f in KeptFields(v, classify) && KeptFields(v, classify)[f] == value) <==>
              v.Filled? && f != Data && HasMember(v.items, f, value, classify)
    {
      if v.Filled? { KeptsExact(v.items, classify, f, value); }
    }
  }

  /** What is kept of an accepted record. */
  lemma RecordFields(data: seq<byte>, classify: Classifier) returns (w1: seq<byte>, v: Value, w2: seq<byte>)
    requires ScanRecord(data, classify).Some?
    ensures Acceptable(v, classify) && IsRecord(data, w1, v, w2, ScanRecord(data, classify).value.rest)
    ensures FieldsOf(ScanRecord(data, classify).value.meta.fields, v, classify)
  {
    w1, v, w2 := ScanRecordSound(data, classify);
    KeptFieldsExact(v, classify);
  }

  // No value contains a raw line feed, so the record ends at the first one

  lemma {:induction false} CharsHaveNoLf(cs: seq<Char>)
    requires WfChars(cs)
    ensures LF !in CharsText(cs)
  {
    if cs != [] {
      CharsHaveNoLf(cs[1..]);
      assert LF !in CharText(cs[0]);
    }
  }

  lemma LabelHasNoLf(l: Label, obj: bool)
    requires WfLabel(l, obj)
    ensures LF !in LabelText(l)
  {
    if l.Key? {
      CharsHaveNoLf(l.name);
      assert LF !in l.beforeColon && LF !in l.afterColon;
    }
  }

  lemma NumHasNoLf(n: Num)
    requires WfNum(n)
    ensures LF !in NumText(n)
  {
    assert LF !in n.whole && LF !in FracText(n.frac) && LF !in ExponentText(n.exp);
  }

  lemma {:induction false} ValueHasNoLf(v: Value)
    requires Wf(v)
    ensures LF !in Text(v)
  {
    match v
    case Str(cs) => CharsHaveNoLf(cs);
    case Number(n) => NumHasNoLf(n);
    case Lit(_) =>
    case Empty(_, w) => assert LF !in w;
    case Filled(o, w, items) =>
      assert LF !in w;
      ItemsHaveNoLf(items, o);
  }

  lemma {:induction false} ItemsHaveNoLf(items: Items, obj: bool)
    requires WfItems(items, obj)
    ensures LF !in ItemsText(items, obj)
  {
    LabelHasNoLf(items.lab, obj);
    ValueHasNoLf(items.v);
    assert LF !in items.after;
    if items.More? {
      assert LF !in items.before;
      ItemsHaveNoLf(items.rest, obj);
    }
  }

  /** On acceptance everything through the first line feed is consumed, and no more. */
  lemma EndsAtFirstLf(data: seq<byte>, classify: Classifier)
    requires ScanRecord(data, classify).Some?
    ensures var rest := ScanRecord(data, classify).value.rest;
            && |rest| < |data|
            && var n := |data| - |rest| - 1;
               data[n] == LF && LF !in data[..n] && rest == data[n + 1..]
  {
    var w1, v, w2 := ScanRecordSound(data, classify);
    ValueHasNoLf(v);
    hide ScanRecord;
    hide Acceptable;
    hide Text;
    var rest := ScanRecord(data, classify).value.rest;
    assert data == (w1 + (Text(v) + w2)) + ([LF] + rest) by {
      Assoc4(w1, Text(v), w2, [LF] + rest);
    }
    FirstLf(w1 + (Text(v) + w2), rest);
  }

  lemma FirstLf(before: seq<byte>, rest: seq<byte>)
    requires LF !in before
    ensures var data := before + ([LF] + rest);
            var n := |data| - |rest| - 1;
            n == |before| && data[n] == LF && LF !in data[..n] && rest == data[n + 1..]
  {
    assert (before + ([LF] + rest))[..|before|] == before;
  }

  // The scan over the stream

  /** Reading a phrase while capturing, from a view that was not capturing. */
  function Charged(v: View, r: Option<seq<byte>>): (w: View)
    ensures w.Live? ==> v.Live? && r.Some? && w.rest == r.value && w.since.None?
  {
    if v.Failed? || r.None? || |r.value| > |v.rest| || |v.rest| - |r.value| > v.budget then Failed
    else Live(r.value, None, v.budget - (|v.rest| - |r.value|))
  }

  method ReadName(p: Cursor) returns (key: seq<byte>)
    requires p.Valid() && p.err.NoFailure?
    modifies p
    ensures p.Valid() && p.View() == Charged(old(p.View()), ScanString(Rest(old(p.View()))))
    ensures p.err.NoFailure? ==> key == old(p.View()).rest[..|old(p.View()).rest| - |p.View().rest|]
  {
    hide ScanString;
    key := [];
    ghost var k := p.pos;
    p.StartCapture();
    p.ReadString();
    if p.err.NoFailure? {
      key := p.capture.value;
      assert key == p.data[k..][..p.pos - k];
    }
    p.StopCapture();
  }

  /** The value of a member, captured when it is kept. */
  method ReadMemberValue(p: Cursor, kept: bool) returns (value: seq<byte>)
    requires p.Valid() && (p.View().Live? ==> p.View().since.None?)
    modifies p
    ensures p.Valid()
    ensures p.View() == if kept then Charged(old(p.View()), ScanValue(Rest(old(p.View())), 1))
                        else Follow(old(p.View()), ScanValue(Rest(old(p.View())), 1))
    ensures kept && p.err.NoFailure? ==> value == old(p.View()).rest[..|old(p.View()).rest| - |p.View().rest|]
  {
    hide ScanValue;
    value := [];
    ghost var k := p.pos;
    if kept {
      p.StartCapture();
      p.ReadValue(1);
      if p.err.NoFailure? {
        value := p.capture.value;
        assert value == p.data[k..][..p.pos - k];
      }
      p.StopCapture();
    } else {
      p.ReadValue(1);
    }
  }

  /** The views that reading a member goes through, and when they end well. */
  lemma MemberViews(v: View, m: Meta, classify: Classifier)
    requires v.Live? && v.since.None? && v.budget == m.budget
    ensures var v1 := Charged(v, ScanString(v.rest));
            var q := ScanMember(Progress(v.rest, m), classify);
            && (v1.Failed? ==> q.None?)
            && (v1.Live? ==>
                  var key := v.rest[..|v.rest| - |v1.rest|];
                  var f := classify(key);
                  var v2 := Follow(v1, Colon(v1.rest));
                  var s := ScanValue(Rest(v2), 1);
                  var v3 := if Kept(f) then Charged(v2, s) else Follow(v2, s);
                  var v4 := Follow(v3, Space(Rest(v3)));
                  && (f.Some? && f.value in m.seen ==> q.None?)
                  && (v4.Failed? ==> q.None?)
                  && (v4.Live? && (f.Some? ==> f.value !in m.seen) ==>
                        && q.Some? && v4 == Live(q.value.rest, None, q.value.meta.budget)
                        && q.value.meta.seen == (if f.Some? then m.seen + {f.value} else m.seen)
                        && q.value.meta.fields == m.fields + KeptOne(key, v2.rest[..|v2.rest| - |v3.rest|], classify)))
  {
    hide ScanString;
    hide Colon;
    hide ScanValue;
    hide Space;
  }

  /** One member; a duplicate of a known member ends the scan. */
  method ReadMember(p: Cursor, seen: set<Field>, fields: map<Field, seq<byte>>, classify: Classifier)
    returns (duplicate: bool, seen': set<Field>, fields': map<Field, seq<byte>>)
    requires p.Valid() && p.capture.None? && p.err.NoFailure?
    modifies p
    ensures p.Valid()
    ensures var q := ScanMember(Progress(old(p.View()).rest, Meta(old(p.budget), seen, fields)), classify);
            if q.Some? then
              && !duplicate
              && p.View() == Live(q.value.rest, None, q.value.meta.budget)
              && seen' == q.value.meta.seen && fields' == q.value.meta.fields
            else duplicate || p.View() == Failed
  {
    hide p.View;
    hide p.Valid;
    hide ScanMember;
    hide ScanString;
    hide Colon;
    hide ScanValue;
    hide Space;
    hide Follow;
    hide Charged;
    duplicate, seen', fields' := false, seen, fields;
    MemberViews(p.View(), Meta(p.budget, seen, fields), classify);
    var key := ReadName(p);
    if !p.err.NoFailure? { return; }
    var f := classify(key);
    p.ReadColon();
    if f.Some? {
      if f.value in seen { return true, seen, fields; }
      seen' := seen + {f.value};
    }
    var value := ReadMemberValue(p, Kept(f));
    fields' := fields + KeptOne(key, value, classify);
    p.SkipSpace();
  }

  method ReadOpen(p: Cursor)
    requires p.Valid()
    modifies p
    ensures p.Valid() && p.View() == Follow(old(p.View()), ScanOpen(Rest(old(p.View()))))
  {
    ghost var v := p.View();
    p.SkipSpace();
    FollowTwice(v, Space(Rest(v)), ScanOpen(Rest(v)));
    ghost var w := p.View();
    p.WantByte(OPEN_BRACE);
    FollowTwice(w, Want(Rest(w), OPEN_BRACE),
                if Want(Rest(w), OPEN_BRACE).Some? then Space(Want(Rest(w), OPEN_BRACE).value) else None);
    p.SkipSpace();
  }

  /** What is left of the scan before the closing brace, as a function of the loop's state. */
  function Remaining(v: View, seen: set<Field>, fields: map<Field, seq<byte>>, classify: Classifier): Option<Progress>
  {
    if v.Failed? then None else ScanBody(Progress(v.rest, Meta(v.budget, seen, fields)), classify)
  }

  lemma BodyStep(v: View, seen: set<Field>, fields: map<Field, seq<byte>>, classify: Classifier)
    requires v.Live? && v.rest != [] && v.rest[0] != CLOSE_BRACE
    ensures var all := Remaining(v, seen, fields, classify);
            var q := ScanMember(Progress(v.rest, Meta(v.budget, seen, fields)), classify);
            && (q.None? ==> all.None?)
            && (q.Some? && q.value.rest[0] != COMMA ==> all == ScanClose(q.value))
            && (q.Some? && q.value.rest[0] == COMMA ==>
                  var m := q.value.meta;
                  var w := Follow(Live(q.value.rest, None, m.budget), Comma(q.value.rest));
                  && (w.Failed? || w.rest[0] == CLOSE_BRACE ==> all.None?)
                  && (w.Live? && w.rest[0] != CLOSE_BRACE ==> all == Remaining(w, m.seen, m.fields, classify)))
  {
    hide Comma;
    hide ScanMember;
    var q := ScanMember(Progress(v.rest, Meta(v.budget, seen, fields)), classify);
    if q.Some? && q.value.rest[0] == COMMA && Comma(q.value.rest).Some? && Comma(q.value.rest).value[0] == CLOSE_BRACE {
      NoMemberAtBrace(q.value.(rest := Comma(q.value.rest).value), classify);
    }
  }

  lemma NoMemberAtBrace(p: Progress, classify: Classifier)
    requires p.rest != [] && p.rest[0] == CLOSE_BRACE
    ensures ScanMembers(p, classify).None?
  {}

  /** The members and the closing brace. */
  method ReadBody(p: Cursor, classify: Classifier) returns (ok: bool, seen: set<Field>, fields: map<Field, seq<byte>>)
    requires p.Valid() && (p.err.NoFailure? ==> p.capture.None?)
    modifies p
    ensures p.Valid()
    ensures var all := Remaining(old(p.View()), {}, map[], classify);
            if all.Some? then
              && ok && fields == all.value.meta.fields && p.View().Live?
              && p.View().rest == all.value.rest && p.View().since.None?
            else !ok || p.View() == Failed
  {
    hide p.View;
    hide p.Valid;
    hide ScanMember;
    hide ScanMembers;
    hide Comma;
    ok, seen, fields := true, {}, map[];
    ghost var goal := Remaining(p.View(), {}, map[], classify);
    while p.err.NoFailure? && p.next != CLOSE_BRACE
      invariant p.Valid() && (p.err.NoFailure? ==> p.capture.None?)
      invariant Remaining(p.View(), seen, fields, classify) == goal
      decreases |Rest(p.View())|
    {
      ghost var v := p.View();
      BodyStep(v, seen, fields, classify);
      var duplicate;
      duplicate, seen, fields := ReadMember(p, seen, fields, classify);
      if duplicate { return false, seen, fields; }
      if p.next != COMMA {
        assert p.View().Live? ==> goal == ScanClose(Progress(p.View().rest, Meta(p.budget, seen, fields)));
        break;
      }
      p.ReadComma();
      if p.next == CLOSE_BRACE {
        p.Fail();
      }
    }
    assert goal == if p.View().Failed? then None else ScanClose(Progress(p.View().rest, Meta(p.budget, seen, fields)));
    p.WantByte(CLOSE_BRACE);
  }

  /** One record; the cursor stops at its line feed. */
  method ReadRecord(p: Cursor, classify: Classifier) returns (kept: Option<map<Field, seq<byte>>>)
    requires p.Valid() && p.View() == if p.data == [] then Failed else Live(p.data, None, METADATA_BUDGET)
    modifies p
    ensures p.Valid()
    ensures var r := ScanRecord(p.data, classify);
            if r.None? then kept.None?
            else && kept == Some(r.value.meta.fields)
                 && p.View().Live? && p.View().rest[0] == LF && p.View().rest[1..] == r.value.rest
  {
    hide p.View;
    hide p.Valid;
    hide ScanOpen;
    hide ScanBody;
    hide Space;
    ReadOpen(p);
    var ok, seen, fields := ReadBody(p, classify);
    if !ok { return None; }
    p.SkipSpace();
    if !p.err.NoFailure? || p.next != LF { return None; }
    kept := Some(fields);
  }

  /** The decoded envelope; an absent member is empty, an absent success is None. */
  datatype Envelope = Envelope(id: string, type_: string, command: string, success: Option<bool>)

  /** JSON decoding of the kept members to their types. */
  type Decoder = map<Field, seq<byte>> -> Option<Envelope>

  datatype Refused = InvalidRecord | InvalidEnvelope | NotCorrelated

  /** A response to a history request that names it and says whether it succeeded. */
  predicate Correlated(m: Envelope)
  {
    m.type_ == "response" && m.command == "get_entries" && m.id != "" && m.success.Some?
  }

  /**
    Validates one record of prefix + stream, where only the last byte of prefix can
    be a line feed.  On acceptance it returns the kept members and how many bytes of
    the stream it consumed.
   */
  method ScanEnvelope(prefix: seq<byte>, stream: seq<byte>, classify: Classifier)
    returns (kept: Option<map<Field, seq<byte>>>, consumed: nat)
    requires forall i :: 0 <= i < |prefix| - 1 ==> prefix[i] != LF
    ensures var r := ScanRecord(prefix + stream, classify);
            if r.None? then kept.None?
            else kept == Some(r.value.meta.fields) && consumed <= |stream| && stream[consumed..] == r.value.rest
  {
    hide ScanRecord;
    var data := prefix + stream;
    var p := new Cursor(data, METADATA_BUDGET);
    kept := ReadRecord(p, classify);
    if kept.None? { return None, 0; }
    assert p.pos < |prefix| ==> prefix[p.pos] == LF;
    consumed := p.pos + 1 - |prefix|;
    assert stream[consumed..] == data[p.pos..][1..];
  }

  /** The whole discard: the scan, the decoding of what was kept, and the correlation. */
  method DiscardHistory(prefix: seq<byte>, stream: seq<byte>, classify: Classifier, decode: Decoder)
    returns (r: Result<(string, string), Refused>, consumed: nat)
    requires forall i :: 0 <= i < |prefix| - 1 ==> prefix[i] != LF
    ensures var scan := ScanRecord(prefix + stream, classify);
            && (r == Err(InvalidRecord) <==> scan.None?)
            && (scan.Some? ==>
                  && consumed <= |stream| && stream[consumed..] == scan.value.rest
                  && (r == Err(InvalidEnvelope) <==> decode(scan.value.meta.fields) == None)
                  && (r == Err(NotCorrelated) <==>
                        decode(scan.value.meta.fields).Some? &&
                        var m := decode(scan.value.meta.fields).value;
                        m.type_ != "response" || m.command != "get_entries" || m.id == "" || m.success == None)
                  && (r.Ok? ==> decode(scan.value.meta.fields).Some?
                                && r.value == (decode(scan.value.meta.fields).value.id, "get_entries")))
  {
    hide ScanRecord;
    var kept;
    kept, consumed := ScanEnvelope(prefix, stream, classify);
    if kept.None? {
      return Err(InvalidRecord), 0;
    }
    var m := decode(kept.value);
    r := if m.None? then Err(InvalidEnvelope)
         else if !Correlated(m.value) then Err(NotCorrelated)
         else Ok((m.value.id, m.value.command));
  }
}
