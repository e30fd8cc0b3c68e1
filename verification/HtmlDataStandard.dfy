/**
 Whole documents against the HTML Standard, sections 13.2.5.1 and 13.2.5.6 to 13.2.5.8: from the data state the
 byte-at-a-time tokenizer finds start tags, with the attribute that holds a link of each, and the portal's
 scanner finds the same links.
 */
module HtmlDataStandard {
  import opened Bytes
  import opened HtmlScan
  import opened PortalHost
  import opened LinkRewrite
  import opened Links
  import HtmlStandard
  import HtmlTagStandard
  import HtmlRawStandard
  import HtmlRefreshStandard

  type Pair = HtmlTagStandard.Pair

  // ----- names and texts, as bytes

  /** "title", "textarea", "style", "xmp", "iframe", "noembed" and "noframes". */
  predicate IsRaw(name: seq<byte>) {
    || name == [116, 105, 116, 108, 101]
    || name == [116, 101, 120, 116, 97, 114, 101, 97]
    || name == [115, 116, 121, 108, 101]
    || name == [120, 109, 112]
    || name == [105, 102, 114, 97, 109, 101]
    || name == [110, 111, 101, 109, 98, 101, 100]
    || name == [110, 111, 102, 114, 97, 109, 101, 115]
  }

  const SCRIPT_NAME: seq<byte> := [115, 99, 114, 105, 112, 116]
  const PLAINTEXT_NAME: seq<byte> := [112, 108, 97, 105, 110, 116, 101, 120, 116]

  function Lowered(s: seq<byte>): (t: seq<byte>)
    ensures |t| == |s| && forall i :: 0 <= i < |s| ==> t[i] == Lower(s[i])
  {
    if s == [] then [] else [Lower(s[0])] + Lowered(s[1..])
  }

  /** The name that the tag name state collects. */
  function NameAt(h: seq<byte>, at: nat): seq<byte>
    requires at <= |h|
    decreases |h| - at
  {
    if at == |h| || EndsName(h[at]) then [] else [Lower(h[at])] + NameAt(h, at + 1)
  }

  // ----- the tokenizer

  datatype StartTag = StartTag(name: seq<byte>, pairs: seq<Pair>)

  /** What stands after a `<`, and where the data state goes on. */
  datatype Found = Found(tag: Option<StartTag>, end: nat)

  /** A tag from its first letter: where it ends, or the end of the document. */
  function TagEnds(h: seq<byte>, at: nat): (end: nat)
    requires at <= |h|
  {
    match HtmlTagStandard.Machine(h, at, HtmlTagStandard.TagName)
    case Ended(_, end) => end
    case Eof => |h|
  }

  /** Where the text of an element ends: after its end tag, if it has one. */
  function TextEnds(h: seq<byte>, name: seq<byte>, from: nat): nat
    requires from <= |h|
  {
    if IsRaw(name) then ClosedAt(h, HtmlRawStandard.RawMachine(h, from, HtmlRawStandard.RawText, name))
    else if name == SCRIPT_NAME then ClosedAt(h, HtmlStandard.ScriptMachine(h, from, HtmlStandard.ScriptData))
    else if name == PLAINTEXT_NAME then |h|
    else from
  }

  function ClosedAt(h: seq<byte>, closer: Option<int>): nat {
    match closer
    case None => |h|
    case Some(at) => if 0 <= at && at + 2 <= |h| then TagEnds(h, at + 2) else |h|
  }

  /** A bogus comment, one byte at a time. */
  function BogusEnds(h: seq<byte>, at: nat): (end: nat)
    requires at <= |h|
    ensures at <= end <= |h|
    decreases |h| - at
  {
    if at == |h| then |h| else if h[at] == GT then at + 1 else BogusEnds(h, at + 1)
  }

  /** The tag open state, and the states it leads to. */
  function Opened(h: seq<byte>, at: nat): Found
    requires at <= |h|
  {
    if at == |h| then Found(None, |h|)
    else if h[at] == BANG then
      if at + 2 < |h| && h[at + 1] == DASH && h[at + 2] == DASH then
        Found(None, HtmlStandard.CommentMachine(h, at + 3, HtmlStandard.CommentStart))
      else Found(None, BogusEnds(h, at + 1))
    else if h[at] == SLASH then
      if at + 1 == |h| then Found(None, |h|)
      else if IsAlpha(h[at + 1]) then Found(None, TagEnds(h, at + 1))
      else if h[at + 1] == GT then Found(None, at + 2)
      else Found(None, BogusEnds(h, at + 1))
    else if IsAlpha(h[at]) then
      match HtmlTagStandard.Machine(h, at, HtmlTagStandard.TagName)
      case Eof => Found(None, |h|)
      case Ended(pairs, end) =>
        var name := NameAt(h, at);
        if end <= |h| then Found(Some(StartTag(name, pairs)), TextEnds(h, name, end)) else Found(None, |h|)
    else if h[at] == QUESTION then Found(None, BogusEnds(h, at))
    else Found(None, at)
  }

  // ----- the link of a start tag

  /** The value of the first attribute of a name, in any case. */
  function ValueOf(pairs: seq<Pair>, name: seq<byte>): Option<seq<byte>> {
    if pairs == [] then None
    else if Lowered(pairs[0].name) == name then Some(pairs[0].value)
    else ValueOf(pairs[1..], name)
  }

  /** `href` of `a` and `area`, `action` of `form`, and the URL in the `content` of a refreshing `meta`. */
  function LinkOf(tag: StartTag): Option<seq<byte>> {
    if tag.name == [97] || tag.name == [97, 114, 101, 97] then ValueOf(tag.pairs, [104, 114, 101, 102])
    else if tag.name == [102, 111, 114, 109] then ValueOf(tag.pairs, [97, 99, 116, 105, 111, 110])
    else if tag.name == [109, 101, 116, 97] then
      match ValueOf(tag.pairs, [104, 116, 116, 112, 45, 101, 113, 117, 105, 118])
      case None => None
      case Some(equiv) =>
        if Lowered(equiv) != [114, 101, 102, 114, 101, 115, 104] then None
        else match ValueOf(tag.pairs, [99, 111, 110, 116, 101, 110, 116])
             case None => None
             case Some(content) => HtmlRefreshStandard.Machine(content, 0, HtmlRefreshStandard.Lead)
    else None
  }

  // ----- comparing names

  predicate IsLowercase(s: seq<byte>) {
    forall i :: 0 <= i < |s| ==> !(65 <= s[i] <= 90)
  }

  lemma CaseIs(a: seq<byte>, b: seq<byte>)
    requires IsLowercase(b)
    ensures EqIgnoreCase(a, b) <==> Lowered(a) == b
  {
    assert forall i :: 0 <= i < |b| ==> Lower(b[i]) == b[i];
  }

  lemma {:induction false} NameIsRun(h: seq<byte>, at: nat)
    requires at <= |h|
    ensures NameAt(h, at) == Lowered(h[at..Run(h, at, NameByte)])
    decreases |h| - at
  {
    hide Lower;
    hide AllAccepted;
    hide EndsName;
    var e := Run(h, at, NameByte);
    if at < |h| && !EndsName(h[at]) {
      NameIsRun(h, at + 1);
      LoweredCons(h[at], h[at + 1..e]);
      assert h[at..e] == [h[at]] + h[at + 1..e];
    } else {
      assert h[at..e] == [];
    }
  }

  lemma LoweredCons(b: byte, s: seq<byte>)
    ensures Lowered([b] + s) == [Lower(b)] + Lowered(s)
  {
    hide Lower;
  }

  // ----- attributes

  lemma FieldNames(field: Field)
    ensures IsLowercase(field.Name())
    ensures Href.Name() == [104, 114, 101, 102] && Action.Name() == [97, 99, 116, 105, 111, 110]
    ensures HttpEquiv.Name() == [104, 116, 116, 112, 45, 101, 113, 117, 105, 118]
    ensures Content.Name() == [99, 111, 110, 116, 101, 110, 116]
  {}

  /** The kept field of a name is the first attribute of that name. */
  lemma {:induction false} FieldIsValue(h: seq<byte>, list: seq<Attribute>, field: Field)
    requires AttributesIn(h, list)
    ensures FieldOf(h, list, field).Some? <==> ValueOf(HtmlTagStandard.Pairs(h, list), field.Name()).Some?
    ensures FieldOf(h, list, field).Some? ==>
              && InBounds(h, FieldOf(h, list, field).value)
              && ValueOf(HtmlTagStandard.Pairs(h, list), field.Name()) == Some(Slice(h, FieldOf(h, list, field).value))
    decreases |list|
  {
    hide EqIgnoreCase;
    hide Field.Name;
    hide IsFirstNamed;
    FieldNames(field);
    if list != [] {
      CaseIs(Slice(h, list[0].name), field.Name());
      FieldIsValue(h, list[1..], field);
      FieldUnfolds(h, list, field);
      PairsUnfold(h, list);
    }
  }

  lemma FieldUnfolds(h: seq<byte>, list: seq<Attribute>, field: Field)
    requires AttributesIn(h, list) && list != []
    ensures FieldOf(h, list, field)
         == if EqIgnoreCase(Slice(h, list[0].name), field.Name()) then Some(list[0].value) else FieldOf(h, list[1..], field)
  {
    hide EqIgnoreCase;
    hide Field.Name;
    hide IsFirstNamed;
  }

  lemma PairsUnfold(h: seq<byte>, list: seq<Attribute>)
    requires AttributesIn(h, list) && list != []
    ensures HtmlTagStandard.Pairs(h, list)
         == [HtmlTagStandard.Pair(Slice(h, list[0].name), Slice(h, list[0].value))] + HtmlTagStandard.Pairs(h, list[1..])
  {}

  // ----- links

  lemma TagNamesAre(s: seq<byte>)
    ensures EqIgnoreCase(s, A) <==> Lowered(s) == [97]
    ensures EqIgnoreCase(s, AREA) <==> Lowered(s) == [97, 114, 101, 97]
    ensures EqIgnoreCase(s, FORM) <==> Lowered(s) == [102, 111, 114, 109]
    ensures EqIgnoreCase(s, META) <==> Lowered(s) == [109, 101, 116, 97]
    ensures EqIgnoreCase(s, REFRESH) <==> Lowered(s) == [114, 101, 102, 114, 101, 115, 104]
  {
    hide EqIgnoreCase;
    hide Lowered;
    CaseIs(s, A);
    CaseIs(s, AREA);
    CaseIs(s, FORM);
    CaseIs(s, META);
    CaseIs(s, REFRESH);
  }

  /** The bytes of a slot, if there is one. */
  function SlotText(h: seq<byte>, slot: Option<Span>): Option<seq<byte>>
    requires slot.Some? ==> InBounds(h, slot.value)
  {
    if slot.None? then None else Some(Slice(h, slot.value))
  }

  lemma MetaSlotIsLink(h: seq<byte>, list: seq<Attribute>)
    requires AttributesIn(h, list)
    ensures SlotText(h, MetaSlot(h, list)) == LinkOf(StartTag([109, 101, 116, 97], HtmlTagStandard.Pairs(h, list)))
  {
    hide EqIgnoreCase;
    hide FieldOf;
    hide ValueOf;
    hide Lowered;
    hide Field.Name;
    hide Refresh;
    hide HtmlRefreshStandard.Machine;
    FieldNames(Href);
    FieldIsValue(h, list, HttpEquiv);
    FieldIsValue(h, list, Content);
    var equiv, content := FieldOf(h, list, HttpEquiv), FieldOf(h, list, Content);
    if equiv.Some? {
      TagNamesAre(Slice(h, equiv.value));
    }
    if content.Some? {
      var c := Slice(h, content.value);
      HtmlRefreshStandard.RefreshIsStandard(c);
      if Refresh(c).Some? {
        SliceOfSlice(h, content.value, Refresh(c).value);
      }
    }
  }

  lemma SliceOfSlice(h: seq<byte>, s: Span, t: Span)
    requires InBounds(h, s) && InBounds(Slice(h, s), t)
    ensures InBounds(h, Span(s.lo + t.lo, s.lo + t.hi))
    ensures Slice(h, Span(s.lo + t.lo, s.lo + t.hi)) == HtmlRefreshStandard.Text(Slice(h, s), t)
  {
    SubSlice(h, s.lo, s.hi, t.lo, t.hi);
  }

  lemma SubSlice(h: seq<byte>, a: nat, b: nat, c: nat, d: nat)
    requires a <= b <= |h| && c <= d <= b - a
    ensures h[a..b][c..d] == h[a + c..a + d]
  {
    var s, t := h[a..b], h[a + c..a + d];
    forall i | 0 <= i < d - c ensures s[c..d][i] == t[i] {
      assert s[c + i] == h[a + (c + i)];
    }
    assert |s[c..d]| == |t|;
  }

  /** The slot of a start tag is the link that its name and attributes have. */
  lemma SlotIsLink(h: seq<byte>, name: Span, list: seq<Attribute>)
    requires InBounds(h, name) && AttributesIn(h, list)
    ensures SlotText(h, UrlSlot(h, name, list)) == LinkOf(StartTag(Lowered(Slice(h, name)), HtmlTagStandard.Pairs(h, list)))
  {
    hide EqIgnoreCase;
    hide FieldOf;
    hide ValueOf;
    hide Lowered;
    hide Field.Name;
    hide MetaSlot;
    FieldNames(Href);
    TagNamesAre(Slice(h, name));
    FieldIsValue(h, list, Href);
    FieldIsValue(h, list, Action);
    MetaSlotIsLink(h, list);
  }

  // ----- where text goes on

  lemma TagEndIs(h: seq<byte>, at: nat)
    requires at <= |h|
    ensures TagEnd(h, at) == TagEnds(h, at)
  {
    hide HtmlTagStandard.Machine;
    hide Tagged;
    HtmlTagStandard.TagIsStandard(h, at);
  }

  /** The raw element whose name this is, if any. */
  lemma RawNames(s: seq<byte>)
    ensures RawName(s, 0).Some? <==> IsRaw(Lowered(s))
    ensures RawName(s, 0).Some? ==> RawName(s, 0).value == Lowered(s) && RawName(s, 0).value in RAW
  {
    hide EqIgnoreCase;
    hide Lowered;
    RawUnfolds(s, 0);
    RawUnfolds(s, 1);
    RawUnfolds(s, 2);
    RawUnfolds(s, 3);
    RawUnfolds(s, 4);
    RawUnfolds(s, 5);
    RawUnfolds(s, 6);
    assert RawName(s, 7) == None;
  }

  lemma RawUnfolds(s: seq<byte>, k: nat)
    requires k < |RAW|
    ensures RawName(s, k) == if Lowered(s) == RAW[k] then Some(RAW[k]) else RawName(s, k + 1)
  {
    hide EqIgnoreCase;
    hide Lowered;
    assert IsLowercase(RAW[k]);
    CaseIs(s, RAW[k]);
  }

  lemma RawEndIs(h: seq<byte>, name: seq<byte>, from: nat)
    requires from <= |h| && name in RAW
    ensures RawEnd(h, from, name) == ClosedAt(h, HtmlRawStandard.RawMachine(h, from, HtmlRawStandard.RawText, name))
  {
    hide RawEnd;
    hide TagEnd;
    hide TagEnds;
    hide HtmlRawStandard.RawMachine;
    var k :| 0 <= k < |RAW| && RAW[k] == name;
    HtmlRawStandard.RawIsStandard(h, from, k);
    var found := HtmlRawStandard.RawMachine(h, from, HtmlRawStandard.RawText, name);
    if found.Some? {
      TagEndIs(h, found.value + 2);
    }
  }

  lemma ScriptEndIs(h: seq<byte>, from: nat)
    requires from <= |h|
    ensures ScriptEnd(h, from) == ClosedAt(h, HtmlStandard.ScriptMachine(h, from, HtmlStandard.ScriptData))
  {
    hide ScriptEnd;
    hide TagEnd;
    hide TagEnds;
    hide HtmlStandard.ScriptMachine;
    HtmlStandard.ScriptIsStandard(h, from);
    var found := HtmlStandard.ScriptMachine(h, from, HtmlStandard.ScriptData);
    if found.Some? {
      TagEndIs(h, found.value + 2);
    }
  }

  lemma OtherNames(s: seq<byte>)
    ensures EqIgnoreCase(s, SCRIPT) <==> Lowered(s) == SCRIPT_NAME
    ensures EqIgnoreCase(s, PLAINTEXT) <==> Lowered(s) == PLAINTEXT_NAME
  {
    hide EqIgnoreCase;
    hide Lowered;
    CaseIs(s, SCRIPT);
    CaseIs(s, PLAINTEXT);
  }

  /** Raw text, script text or none follows a start tag as its name says, and ends where the standard's does. */
  lemma TextEndIs(h: seq<byte>, s: seq<byte>, end: nat)
    requires end <= |h|
    ensures TextEnd(h, s, end) == TextEnds(h, Lowered(s), end)
  {
    hide EqIgnoreCase;
    hide Lowered;
    hide RawName;
    hide RawEnd;
    hide ScriptEnd;
    hide ClosedAt;
    hide IsRaw;
    RawNames(s);
    OtherNames(s);
    ScriptEndIs(h, end);
    if RawName(s, 0).Some? {
      RawEndIs(h, Lowered(s), end);
    }
  }

  lemma {:induction false} PastIsBogus(h: seq<byte>, at: nat)
    requires at <= |h|
    ensures Past(h, at, GT) == BogusEnds(h, at)
    decreases |h| - at
  {
    hide AllAccepted;
    if at < |h| && h[at] != GT {
      PastIsBogus(h, at + 1);
    }
  }

  // ----- markup

  lemma StartTagIsOpened(h: seq<byte>, at: nat)
    requires at < |h| && IsAlpha(h[at])
    ensures var p, f := StartTagAt(h, at), Opened(h, at);
            && p.end == f.end
            && SlotText(h, p.slot) == (if f.tag.None? then None else LinkOf(f.tag.value))
  {
    hide HtmlTagStandard.Machine;
    hide Tagged;
    hide UrlSlot;
    hide TextEnd;
    hide TextEnds;
    hide LinkOf;
    hide NameAt;
    hide Run;
    HtmlTagStandard.TagIsStandard(h, at);
    match Tagged(h, at) {
      case Unterminated =>
      case Tag(name, list, end) =>
        TagNameSpan(h, at);
        NameIsRun(h, at);
        SlotIsLink(h, name, list);
        TextEndIs(h, Slice(h, name), end);
    }
  }

  lemma TagNameSpan(h: seq<byte>, at: nat)
    requires at <= |h| && Tagged(h, at).Tag?
    ensures Tagged(h, at).name == Span(at, Run(h, at, NameByte))
  {
    hide Run;
    hide ReadAttributes;
    hide Within;
  }

  lemma CommentDashes(h: seq<byte>, at: nat)
    requires at < |h|
    ensures StartsWith(h[at + 1..], [DASH, DASH]) <==> at + 2 < |h| && h[at + 1] == DASH && h[at + 2] == DASH
  {
    var t := h[at + 1..];
    if |t| >= 2 {
      assert t[..2] == [t[0], t[1]];
    }
  }

  lemma EndTagIsOpened(h: seq<byte>, at: nat)
    requires at < |h| && h[at] == SLASH
    ensures EndTag(h, at + 1) == Opened(h, at).end && Opened(h, at).tag == None
  {
    hide TagEnd;
    hide TagEnds;
    hide Past;
    hide BogusEnds;
    if at + 1 < |h| {
      TagEndIs(h, at + 1);
      PastIsBogus(h, at + 1);
    }
  }

  lemma BangIsOpened(h: seq<byte>, at: nat)
    requires at < |h| && (h[at] == BANG || h[at] == QUESTION)
    ensures var p, f := MarkupAt(h, at), Opened(h, at);
            p.end == f.end && p.slot == None && f.tag == None
  {
    hide HtmlStandard.CommentMachine;
    hide CommentFrom;
    hide Past;
    hide BogusEnds;
    hide StartsWith;
    CommentDashes(h, at);
    PastIsBogus(h, at);
    BogusSkips(h, at);
    if h[at] == BANG && at + 2 < |h| && h[at + 1] == DASH && h[at + 2] == DASH {
      HtmlStandard.CommentIsStandard(h, at + 3);
    }
  }

  lemma BogusSkips(h: seq<byte>, at: nat)
    requires at < |h| && h[at] != GT
    ensures BogusEnds(h, at) == BogusEnds(h, at + 1)
  {}

  /** Whatever stands after a `<`, the portal goes on where the standard's tokenizer does, with the same link. */
  lemma MarkupIsStandard(h: seq<byte>, at: nat)
    requires at <= |h|
    ensures var p, f := MarkupAt(h, at), Opened(h, at);
            && p.end == f.end <= |h| && at <= f.end
            && SlotText(h, p.slot) == (if f.tag.None? then None else LinkOf(f.tag.value))
  {
    hide StartTagAt;
    hide EndTag;
    hide HtmlStandard.CommentMachine;
    hide CommentFrom;
    hide LinkOf;
    hide TagEnds;
    hide TextEnds;
    hide HtmlTagStandard.Machine;
    hide BogusEnds;
    hide Past;
    if at < |h| {
      if h[at] == BANG || h[at] == QUESTION {
        BangIsOpened(h, at);
      } else if h[at] == SLASH {
        EndTagIsOpened(h, at);
      } else if IsAlpha(h[at]) {
        StartTagIsOpened(h, at);
      }
    }
  }

  // ----- documents

  /** The links of a document, from the data state, one byte at a time. */
  function LinksFrom(h: seq<byte>, at: nat): seq<seq<byte>>
    requires at <= |h|
    decreases |h| - at
  {
    if at == |h| then []
    else if h[at] != LT then LinksFrom(h, at + 1)
    else
      MarkupIsStandard(h, at + 1);
      var f := Opened(h, at + 1);
      var link := if f.tag.None? then None else LinkOf(f.tag.value);
      (if link.None? then [] else [link.value]) + LinksFrom(h, f.end)
  }

  /** The slots that the portal's pass meets. */
  function SlotsFrom(h: seq<byte>, at: nat): seq<Option<Span>>
    requires at <= |h|
    decreases |h| - at
  {
    if at == |h| then []
    else
      var p := MarkupAt(h, Run(h, at, Not(LT)) + 1);
      (if p.slot.None? then [] else [p.slot]) + SlotsFrom(h, p.end)
  }

  predicate AllIn(h: seq<byte>, slots: seq<Option<Span>>) {
    forall i :: 0 <= i < |slots| ==> slots[i].Some? && InBounds(h, slots[i].value)
  }

  function Texts(h: seq<byte>, slots: seq<Option<Span>>): seq<seq<byte>>
    requires AllIn(h, slots)
  {
    if slots == [] then [] else [Slice(h, slots[0].value)] + Texts(h, slots[1..])
  }

  lemma {:induction false} LinksSkip(h: seq<byte>, at: nat)
    requires at <= |h|
    ensures LinksFrom(h, at) == LinksFrom(h, Run(h, at, Not(LT)))
    decreases |h| - at
  {
    hide Opened;
    hide LinkOf;
    hide AllAccepted;
    if at < |h| && h[at] != LT {
      LinksSkip(h, at + 1);
    }
  }

  /** On every document the portal's pass meets exactly the links that the standard's tokenizer finds, in order. */
  lemma {:induction false} LinksAreStandard(h: seq<byte>, at: nat)
    requires at <= |h|
    ensures AllIn(h, SlotsFrom(h, at)) && Texts(h, SlotsFrom(h, at)) == LinksFrom(h, at)
    decreases |h| - at
  {
    hide MarkupAt;
    hide Opened;
    hide LinkOf;
    hide Run;
    hide AllAccepted;
    hide LinksFrom;
    hide SlotsFrom;
    hide Texts;
    NoTexts(h);
    LinksAtEnd(h);
    SlotsUnfold(h, at);
    if at < |h| {
      var lt := Run(h, at, Not(LT));
      LinksSkip(h, at);
      if lt == |h| {
        NothingAfter(h);
        SlotsUnfold(h, |h|);
      } else {
        MarkupIsStandard(h, lt + 1);
        LinksUnfold(h, lt);
        var p := MarkupAt(h, lt + 1);
        LinksAreStandard(h, p.end);
        if p.slot.Some? {
          TextsCons(h, p.slot, SlotsFrom(h, p.end));
        } else {
          assert [] + SlotsFrom(h, p.end) == SlotsFrom(h, p.end) && [] + LinksFrom(h, p.end) == LinksFrom(h, p.end);
        }
      }
    }
  }

  lemma SlotsUnfold(h: seq<byte>, at: nat)
    requires at <= |h|
    ensures at == |h| ==> SlotsFrom(h, at) == []
    ensures at < |h| ==>
              var p := MarkupAt(h, Run(h, at, Not(LT)) + 1);
              SlotsFrom(h, at) == (if p.slot.None? then [] else [p.slot]) + SlotsFrom(h, p.end)
  {
    hide MarkupAt;
    hide Run;
  }

  lemma NoTexts(h: seq<byte>)
    ensures Texts(h, []) == []
  {}

  lemma TextsCons(h: seq<byte>, slot: Option<Span>, rest: seq<Option<Span>>)
    requires slot.Some? && InBounds(h, slot.value) && AllIn(h, rest)
    ensures AllIn(h, [slot] + rest) && Texts(h, [slot] + rest) == [Slice(h, slot.value)] + Texts(h, rest)
  {
    assert ([slot] + rest)[1..] == rest;
  }

  lemma NothingAfter(h: seq<byte>)
    ensures MarkupAt(h, |h| + 1) == Piece(None, |h|)
  {}

  lemma LinksAtEnd(h: seq<byte>)
    ensures LinksFrom(h, |h|) == []
  {}

  lemma LinksUnfold(h: seq<byte>, at: nat)
    requires at < |h| && h[at] == LT
    ensures var f := Opened(h, at + 1);
            at + 1 <= f.end <= |h|
            && LinksFrom(h, at) == (if f.tag.None? || LinkOf(f.tag.value).None? then [] else [LinkOf(f.tag.value).value]) + LinksFrom(h, f.end)
  {
    hide Opened;
    hide LinkOf;
    hide MarkupAt;
    MarkupIsStandard(h, at + 1);
  }

  // ----- edits

  /** The links of a document that are rewritten, each with what it is rewritten to; space around a link does not count. */
  function Rewrites(links: seq<seq<byte>>, portal: Portal): seq<(seq<byte>, seq<byte>)> {
    if links == [] then []
    else RewriteOne(links[0], portal) + Rewrites(links[1..], portal)
  }

  function RewriteOne(link: seq<byte>, portal: Portal): seq<(seq<byte>, seq<byte>)> {
    var t := Trimmed(link);
    var candidate := link[t.lo..t.hi];
    match RewriteOf(candidate, portal)
    case Keep => []
    case To(text) => [(candidate, text)]
  }

  /** What edits replace, and by what. */
  function Replaced(h: seq<byte>, es: seq<Edit>): seq<(seq<byte>, seq<byte>)>
    requires Ordered(h, es)
  {
    if es == [] then []
    else
      OrderedRest(h, es);
      [(h[es[0].start..es[0].end], es[0].text)] + Replaced(h, es[1..])
  }

  lemma OrderedRest(h: seq<byte>, es: seq<Edit>)
    requires Ordered(h, es) && es != []
    ensures Ordered(h, es[1..])
  {
    var rest := es[1..];
    forall i | 0 <= i < |rest| ensures rest[i].start < rest[i].end <= |h| && (i > 0 ==> rest[i - 1].end <= rest[i].start) {
      assert rest[i] == es[i + 1];
    }
  }

  lemma OneReplaced(h: seq<byte>, es: seq<Edit>, rest: seq<Edit>)
    requires |es| <= 1 && Ordered(h, es + rest)
    ensures Ordered(h, es) && Ordered(h, rest)
    ensures Replaced(h, es + rest) == Replaced(h, es) + Replaced(h, rest)
  {
    hide Ordered;
    hide Replaced;
    NothingReplaced(h);
    if es == [] {
      assert es + rest == rest && [] + Replaced(h, rest) == Replaced(h, rest);
    } else {
      assert (es + rest)[1..] == rest && (es + rest)[0] == es[0] && es[1..] == [];
      OrderedRest(h, es + rest);
      FirstOrdered(h, es, rest);
      ReplacedUnfolds(h, es + rest);
      ReplacedUnfolds(h, es);
    }
  }

  lemma NothingReplaced(h: seq<byte>)
    ensures Ordered(h, []) && Replaced(h, []) == []
  {}

  lemma FirstOrdered(h: seq<byte>, es: seq<Edit>, rest: seq<Edit>)
    requires |es| == 1 && Ordered(h, es + rest)
    ensures Ordered(h, es)
  {
    assert es[0] == (es + rest)[0];
  }

  lemma ReplacedUnfolds(h: seq<byte>, es: seq<Edit>)
    requires Ordered(h, es) && es != []
    ensures es[0].start <= es[0].end <= |h| && Ordered(h, es[1..])
    ensures Replaced(h, es) == [(h[es[0].start..es[0].end], es[0].text)] + Replaced(h, es[1..])
  {
    OrderedRest(h, es);
  }

  lemma SlotIsReplaced(h: seq<byte>, slot: Option<Span>, portal: Portal)
    requires (slot.Some? ==> InBounds(h, slot.value)) && Ordered(h, SlotEdits(h, slot, portal))
    ensures Replaced(h, SlotEdits(h, slot, portal)) == if slot.None? then [] else RewriteOne(Slice(h, slot.value), portal)
  {
    hide RewriteOf;
    hide Trimmed;
    if slot.Some? {
      var s, t := slot.value, Trimmed(Slice(h, slot.value));
      assert Slice(h, s)[t.lo..t.hi] == h[s.lo + t.lo..s.lo + t.hi];
      assert SlotEdits(h, slot, portal) != [] ==> SlotEdits(h, slot, portal)[1..] == [];
    }
  }

  lemma {:induction false} EditsReplaceSlots(h: seq<byte>, at: nat, portal: Portal)
    requires at <= |h| && AllIn(h, SlotsFrom(h, at))
    ensures Ordered(h, EditsFrom(h, at, portal))
    ensures Replaced(h, EditsFrom(h, at, portal)) == Rewrites(Texts(h, SlotsFrom(h, at)), portal)
    decreases |h| - at
  {
    hide MarkupAt;
    hide SlotEdits;
    hide SlotsFrom;
    hide RewriteOne;
    hide Ordered;
    hide Texts;
    hide Run;
    hide AllAccepted;
    EditsOrdered(h, at, portal);
    SlotsUnfold(h, at);
    NoTexts(h);
    if at < |h| {
      var p := MarkupAt(h, Run(h, at, Not(LT)) + 1);
      var made, rest := SlotEdits(h, p.slot, portal), EditsFrom(h, p.end, portal);
      SlotWithin(h, Run(h, at, Not(LT)) + 1);
      SlotEditsAre(h, p.slot, portal);
      AllInRest(h, p.slot, SlotsFrom(h, p.end));
      EditsReplaceSlots(h, p.end, portal);
      OneReplaced(h, made, rest);
      SlotIsReplaced(h, p.slot, portal);
      if p.slot.Some? {
        TextsCons(h, p.slot, SlotsFrom(h, p.end));
        RewritesCons(Slice(h, p.slot.value), Texts(h, SlotsFrom(h, p.end)), portal);
      } else {
        assert [] + SlotsFrom(h, p.end) == SlotsFrom(h, p.end) && [] + Replaced(h, rest) == Replaced(h, rest);
      }
    }
  }

  lemma AllInRest(h: seq<byte>, slot: Option<Span>, rest: seq<Option<Span>>)
    ensures AllIn(h, (if slot.None? then [] else [slot]) + rest) ==> AllIn(h, rest)
  {
    var all := (if slot.None? then [] else [slot]) + rest;
    if AllIn(h, all) {
      forall i | 0 <= i < |rest| ensures rest[i].Some? && InBounds(h, rest[i].value) {
        assert rest[i] == all[i + |all| - |rest|];
      }
    }
  }

  lemma RewritesCons(link: seq<byte>, rest: seq<seq<byte>>, portal: Portal)
    ensures Rewrites([link] + rest, portal) == RewriteOne(link, portal) + Rewrites(rest, portal)
  {
    hide RewriteOne;
    assert ([link] + rest)[1..] == rest;
  }

  /**
   On every document, what the portal replaces is exactly the rewritable links that the standard's tokenizer
   finds, in document order, each by what it is rewritten to.
   */
  lemma EditsAreTheLinks(h: seq<byte>, portal: Portal)
    ensures Ordered(h, EditsFrom(h, 0, portal))
    ensures Replaced(h, EditsFrom(h, 0, portal)) == Rewrites(LinksFrom(h, 0), portal)
  {
    hide EditsFrom;
    hide SlotsFrom;
    hide LinksFrom;
    hide Ordered;
    hide Rewrites;
    LinksAreStandard(h, 0);
    EditsReplaceSlots(h, 0, portal);
  }
}
