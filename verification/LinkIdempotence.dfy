/**
 A rewritten page has nothing left to rewrite. One edit is followed through the tokenizer: what stands
 before it and after it is tokenized as before, the edited tag keeps its attributes and its slot, and
 the new text in that slot is not a link to rewrite. The theorem is by induction on the number of edits.
 */
module LinkIdempotence {
  import opened Bytes
  import opened HtmlScan
  import opened PortalHost
  import opened LinkRewrite
  import opened Links
  import opened LinkLocality

  /** `g` is `h` with the bytes from `p` to `q` replaced by `text`. */
  datatype Patch = Patch(h: seq<byte>, g: seq<byte>, p: nat, q: nat, text: seq<byte>) {
    function Delta(): int { |text| - (q - p) }

    predicate Valid() {
      && p < q <= |h|
      && g == h[..p] + text + h[q..]
    }

    /** The replaced text is an `urma://` link; the new text is harmless in its place. */
    predicate Harmless() {
      && Valid()
      && |text| > 0 && text[0] == 104
      && StartsWith(h[p..q], SCHEME)
      && NoNewBytes(text, h[p..q])
    }

    function Before(): Window { Window(h, g, 0, p, 0) }

    function After(): Window { Window(h, g, q, |h|, Delta()) }

    /** The position in `g` of a position outside the replaced bytes. */
    function To(x: nat): nat
      requires Valid()
    {
      if x <= p then x else Moved(x, Delta())
    }

    function Span(s: Span): Span
      requires Valid()
    {
      HtmlScan.Span(To(s.lo), To(s.hi))
    }
  }

  /** A span whose end has moved. */
  function Grown(s: HtmlScan.Span, d: int): HtmlScan.Span {
    HtmlScan.Span(s.lo, Moved(s.hi, d))
  }

  lemma Windows(e: Patch)
    requires e.Valid()
    ensures e.Before().Valid() && e.After().Valid() && e.After().Whole()
    ensures |e.g| == |e.h| + e.Delta()
    ensures forall i :: e.p <= i < e.p + |e.text| ==> e.g[i] == e.text[i - e.p]
  {
    var w := e.After();
    forall i | w.lo <= i < w.hi
      ensures w.g[i + w.d] == w.h[i]
    {
      assert w.g[i + w.d] == e.h[e.q..][i - e.q];
    }
  }

  lemma LinkBytes(e: Patch)
    requires e.Harmless()
    ensures e.p + 7 <= e.q <= |e.h| && e.p < |e.g| == |e.h| + e.Delta()
    ensures e.h[e.p] == 117 && e.h[e.p + 1] == 114 && e.h[e.p + 2] == 109
    ensures e.g[e.p] == 104
  {
    var link := e.h[e.p..e.q];
    assert link[..7] == SCHEME;
    assert link[0] == link[..7][0] && link[1] == link[..7][1] && link[2] == link[..7][2];
  }

  lemma PatchShape(e: Patch)
    requires e.Harmless()
    ensures e.Valid() && e.p < e.q <= |e.h| && e.p < |e.g| == |e.h| + e.Delta()
  {}

  lemma ByteBefore(e: Patch, i: nat)
    requires e.Valid() && i < e.p
    ensures i < |e.g| && e.g[i] == e.h[i]
  {}

  /** The classes that run over whole values: the new text stays inside when the link did. */
  predicate ValueClass(accept: Accept) {
    accept == UnquotedByte || accept == Not(DQUOTE) || accept == Not(SQUOTE)
  }

  lemma SafeAccepted(b: byte, accept: Accept)
    requires Safe(b) && ValueClass(accept)
    ensures accept.Has(b)
  {}

  lemma TextAccepted(e: Patch, x: nat, accept: Accept)
    requires e.Harmless() && ValueClass(accept)
    requires x <= e.p && e.q <= Run(e.h, x, accept)
    ensures forall i :: 0 <= i < |e.text| ==> accept.Has(e.text[i])
  {
    hide Run;
    hide StartsWith;
    hide Safe;
    var link := e.h[e.p..e.q];
    forall i | 0 <= i < |e.text|
      ensures accept.Has(e.text[i])
    {
      if Safe(e.text[i]) {
        SafeAccepted(e.text[i], accept);
      } else if e.text[i] in link {
        var k :| 0 <= k < |link| && link[k] == e.text[i];
        assert link[k] == e.h[e.p + k];
      }
    }
  }

  /** A run that covers the link covers the new text. */
  lemma RunOver(e: Patch, x: nat, accept: Accept)
    requires e.Harmless() && ValueClass(accept)
    requires x <= e.p && e.q <= Run(e.h, x, accept)
    ensures Run(e.g, x, accept) == Run(e.h, x, accept) + e.Delta()
  {
    hide Run;
    hide Accept.Has;
    hide NoNewBytes;
    hide StartsWith;
    hide ValueClass;
    TextAccepted(e, x, accept);
    Windows(e);
    var r := Run(e.h, x, accept);
    RunIs(e.h, e.q, accept, r);
    RunSame(e.After(), e.q, accept);
    var s := r + e.Delta();
    forall i | x <= i < s
      ensures accept.Has(e.g[i])
    {
      if i < e.p {
        assert e.g[i] == e.h[i];
      } else if i >= e.p + |e.text| {
        assert e.g[i] == e.h[i - e.Delta()];
      }
    }
    RunIs(e.g, x, accept, s);
  }

  /** A run that stops at or before the link stops there still: no such class accepts `u` or `h`. */
  lemma RunUpTo(e: Patch, x: nat, accept: Accept)
    requires e.Harmless()
    requires x <= Run(e.h, x, accept) <= e.p
    requires !accept.Has(104) || Run(e.h, x, accept) < e.p
    ensures Run(e.g, x, accept) == Run(e.h, x, accept)
  {
    hide Run;
    hide Accept.Has;
    hide NoNewBytes;
    hide StartsWith;
    LinkBytes(e);
    var r := Run(e.h, x, accept);
    if r < e.p {
      Windows(e);
      RunSame(e.Before(), x, accept);
    } else {
      forall i | x <= i < r ensures e.g[i] == e.h[i] {
        ByteBefore(e, i);
      }
      RunIs(e.g, x, accept, r);
    }
  }

  // ----- the edited tag

  predicate Covers(e: Patch, s: HtmlScan.Span) {
    s.lo <= e.p && e.q <= s.hi
  }

  lemma SpaceUpTo(e: Patch, x: nat)
    requires e.Harmless() && x <= Run(e.h, x, Space) <= e.p
    ensures Run(e.g, x, Space) == Run(e.h, x, Space)
    ensures e.p < |e.g| && e.p < |e.h| && e.h[e.p] == 117 && e.g[e.p] == 104
  {
    hide Run;
    LinkBytes(e);
    RunUpTo(e, x, Space);
  }

  lemma ValuePatched(e: Patch, x: nat)
    requires e.Harmless() && x <= e.p
    requires var v := AttributeValue(e.h, x); v.Value? && Covers(e, v.span)
    ensures var v := AttributeValue(e.h, x);
            AttributeValue(e.g, x) == Value(e.Span(v.span), e.To(v.next))
  {
    hide Run;
    hide AllAccepted;
    hide Patch.Valid;
    hide Patch.Harmless;
    hide Accept.Has;
    PatchShape(e);
    var at := Run(e.h, x, Space);
    SpaceUpTo(e, x);
    if at < e.p {
      ByteBefore(e, at);
    }
    if e.h[at] != DQUOTE && e.h[at] != SQUOTE {
      RunOver(e, at, UnquotedByte);
    } else {
      RunOver(e, at + 1, Not(e.h[at]));
    }
  }

  function PatchAttribute(e: Patch, a: Attribute): Attribute
    requires e.Valid()
  {
    Attribute(e.Span(a.name), e.Span(a.value))
  }

  lemma AttributePatched(e: Patch, s: nat)
    requires e.Harmless() && s < e.p
    requires var t := AttributeAt(e.h, s); t.Reads? && Covers(e, t.attribute.value)
    ensures s < |e.g|
    ensures var t := AttributeAt(e.h, s);
            AttributeAt(e.g, s) == Reads(PatchAttribute(e, t.attribute), e.To(t.next))
  {
    hide Run;
    hide AllAccepted;
    hide AttributeValue;
    hide Patch.Valid;
    hide Patch.Harmless;
    PatchShape(e);
    LinkBytes(e);
    var nameEnd := Run(e.h, s + 1, AttributeNameByte);
    var after := Run(e.h, nameEnd, Space);
    RunUpTo(e, s + 1, AttributeNameByte);
    RunUpTo(e, nameEnd, Space);
    ByteBefore(e, after);
    ValuePatched(e, after + 1);
  }

  lemma TurnPatched(e: Patch, x: nat)
    requires e.Harmless() && x <= e.p
    requires var t := NextAttribute(e.h, x); t.Reads? && Covers(e, t.attribute.value)
    ensures var t := NextAttribute(e.h, x);
            NextAttribute(e.g, x) == Reads(PatchAttribute(e, t.attribute), e.To(t.next))
  {
    hide Run;
    hide AllAccepted;
    hide AttributeAt;
    hide Patch.Valid;
    hide Patch.Harmless;
    PatchShape(e);
    LinkBytes(e);
    var s := Run(e.h, x, SpaceOrSlash);
    RunUpTo(e, x, SpaceOrSlash);
    ByteBefore(e, s);
    AttributePatched(e, s);
  }

  function PatchAttributes(e: Patch, list: seq<Attribute>): (r: seq<Attribute>)
    requires e.Valid()
    ensures |r| == |list|
    ensures forall i :: 0 <= i < |list| ==> r[i] == PatchAttribute(e, list[i])
  {
    if list == [] then [] else [PatchAttribute(e, list[0])] + PatchAttributes(e, list[1..])
  }

  /** Attributes after the edit move; attributes before it stay. */
  lemma PatchIsMove(e: Patch, list: seq<Attribute>, lo: nat, hi: nat)
    requires e.Valid() && Within(list, lo, hi)
    ensures lo >= e.q ==> PatchAttributes(e, list) == MoveAttributes(list, e.Delta())
    ensures hi <= e.p ==> PatchAttributes(e, list) == list
  {}

  /** Attribute `k` is the one that this turn reads, or one of those read later. */
  lemma ReadSplit(h: seq<byte>, x: nat, k: nat)
    requires x <= |h|
    requires var r := ReadAttributes(h, x); r.Closed? && k < |r.list|
    ensures var t, r := NextAttribute(h, x), ReadAttributes(h, x);
            && t.Reads?
            && var rest := ReadAttributes(h, t.next);
            && rest.Closed?
            && (k == 0 ==> r.list[k] == t.attribute)
            && (k > 0 ==> k - 1 < |rest.list| && rest.list[k - 1] == r.list[k] && t.next < r.list[k].value.lo)
  {
    hide NextAttribute;
  }

  lemma ReadUnfolds(h: seq<byte>, x: nat)
    requires x <= |h| && NextAttribute(h, x).Reads?
    ensures var t := NextAttribute(h, x);
            var rest := ReadAttributes(h, t.next);
            ReadAttributes(h, x) == if rest.Closed? then Closed([t.attribute] + rest.list, rest.end) else Open
  {
    hide NextAttribute;
  }

  /** After the edited attribute, the rest of the tag moves. */
  lemma ReadAfter(e: Patch, x: nat)
    requires e.Harmless() && e.q <= x <= |e.h|
    requires ReadAttributes(e.h, x).Closed?
    ensures ReadsPatched(e, x)
  {
    hide ReadAttributes;
    hide StartsWith;
    hide NoNewBytes;
    Windows(e);
    var r := ReadAttributes(e.h, x);
    ReadSame(e.After(), x);
    PatchIsMove(e, r.list, x, r.end);
  }

  /** Before the edited attribute, attributes are read as they were. */
  lemma TurnBefore(e: Patch, x: nat)
    requires e.Valid() && x <= e.p
    requires var t := NextAttribute(e.h, x); t.Reads? && t.next < e.p
    ensures var t := NextAttribute(e.h, x);
            NextAttribute(e.g, x) == Reads(PatchAttribute(e, t.attribute), e.To(t.next))
  {
    hide NextAttribute;
    Windows(e);
    TurnSame(e.Before(), x);
  }

  lemma ConsPatched(e: Patch, a: Attribute, list: seq<Attribute>)
    requires e.Valid()
    ensures PatchAttributes(e, [a] + list) == [PatchAttribute(e, a)] + PatchAttributes(e, list)
  {
    assert ([a] + list)[1..] == list;
  }

  predicate ReadsPatched(e: Patch, x: nat) {
    && e.Valid() && x <= |e.h| && e.To(x) <= |e.g|
    && ReadAttributes(e.h, x).Closed?
    && ReadAttributes(e.g, e.To(x))
       == Closed(PatchAttributes(e, ReadAttributes(e.h, x).list), e.To(ReadAttributes(e.h, x).end))
  }

  lemma ReadCons(e: Patch, x: nat)
    requires e.Valid() && x <= e.p && e.To(x) <= |e.g|
    requires var t := NextAttribute(e.h, x);
             && t.Reads?
             && NextAttribute(e.g, x) == Reads(PatchAttribute(e, t.attribute), e.To(t.next))
             && ReadsPatched(e, t.next)
    ensures ReadsPatched(e, x)
  {
    hide NextAttribute;
    hide PatchAttribute;
    hide PatchAttributes;
    hide ReadAttributes;
    hide Within;
    var t := NextAttribute(e.h, x);
    ReadUnfolds(e.h, x);
    ReadUnfolds(e.g, x);
    var rest := ReadAttributes(e.h, t.next);
    ConsPatched(e, t.attribute, rest.list);
  }

  lemma ReadHere(e: Patch, x: nat)
    requires e.Harmless() && x <= e.p
    requires var t := NextAttribute(e.h, x);
             t.Reads? && Covers(e, t.attribute.value) && ReadAttributes(e.h, t.next).Closed?
    ensures ReadsPatched(e, x)
  {
    hide NextAttribute;
    hide ReadAttributes;
    hide Within;
    hide Patch.Valid;
    hide Patch.Harmless;
    PatchShape(e);
    TurnPatched(e, x);
    ReadAfter(e, NextAttribute(e.h, x).next);
    ReadCons(e, x);
  }

  /** The tag scanner reads the edited tag as the same list of attributes. */
  lemma {:induction false} ReadPatched(e: Patch, x: nat, k: nat)
    requires e.Harmless() && x <= e.p
    requires var r := ReadAttributes(e.h, x); r.Closed? && k < |r.list| && Covers(e, r.list[k].value)
    ensures ReadsPatched(e, x)
    decreases k
  {
    hide NextAttribute;
    hide ReadAttributes;
    hide ReadsPatched;
    hide Within;
    hide Patch.Valid;
    hide Patch.Harmless;
    PatchShape(e);
    ReadSplit(e.h, x, k);
    if k == 0 {
      ReadHere(e, x);
    } else {
      ReadPatched(e, NextAttribute(e.h, x).next, k - 1);
      TurnBefore(e, x);
      ReadCons(e, x);
    }
  }

  lemma TagPatched(e: Patch, x: nat, k: nat)
    requires e.Harmless() && x <= e.p
    requires var t := Tagged(e.h, x); t.Tag? && k < |t.attributes| && Covers(e, t.attributes[k].value)
    ensures x <= |e.g|
    ensures var t := Tagged(e.h, x);
            Tagged(e.g, x) == Tag(t.name, PatchAttributes(e, t.attributes), e.To(t.end))
  {
    hide Run;
    hide AllAccepted;
    hide ReadAttributes;
    hide PatchAttributes;
    hide Patch.Valid;
    hide Patch.Harmless;
    PatchShape(e);
    var nameEnd := Run(e.h, x, NameByte);
    assert nameEnd < e.p;
    RunUpTo(e, x, NameByte);
    ReadPatched(e, nameEnd, k);
  }

  // ----- the refresh value

  lemma IsUpTo(e: Patch, x: nat, wanted: seq<byte>)
    requires e.Harmless() && x <= e.p
    requires 104 !in wanted && (x == e.p ==> 117 !in wanted)
    ensures Is(e.g, x, wanted) <==> Is(e.h, x, wanted)
  {
    hide Patch.Valid;
    hide Patch.Harmless;
    PatchShape(e);
    LinkBytes(e);
    if x < e.p {
      ByteBefore(e, x);
    }
  }

  lemma NoLetters()
    ensures !Space.Has(104) && !Digit.Has(104) && !DigitOrDot.Has(104)
  {}

  lemma RefreshStartPatched(e: Patch)
    requires e.Harmless()
    requires RefreshStart(e.h).Some? && RefreshStart(e.h).value <= e.p
    ensures RefreshStart(e.g) == RefreshStart(e.h)
  {
    hide Run;
    hide AllAccepted;
    hide Is;
    hide Patch.Valid;
    hide Patch.Harmless;
    hide Accept.Has;
    PatchShape(e);
    NoLetters();
    var time := Run(e.h, 0, Space);
    var digits := Run(e.h, time, Digit);
    var at := Run(e.h, digits, DigitOrDot);
    var gap := Run(e.h, at, Space);
    var next := if Is(e.h, gap, [SEMICOLON, COMMA]) then gap + 1 else gap;
    RunUpTo(e, 0, Space);
    RunUpTo(e, time, Digit);
    IsUpTo(e, time, [DOT]);
    RunUpTo(e, digits, DigitOrDot);
    IsUpTo(e, at, [SEMICOLON, COMMA, TAB, LF, FF, CR, SPACE]);
    RunUpTo(e, at, Space);
    IsUpTo(e, gap, [SEMICOLON, COMMA]);
    RunUpTo(e, next, Space);
  }

  /** Only space stands between the start of the slot and the link. */
  predicate Indented(e: Patch, s: HtmlScan.Span) {
    Covers(e, s) && forall i :: s.lo <= i < e.p ==> i < |e.h| && IsSpace(e.h[i])
  }

  lemma QuotedPatched(e: Patch, at: nat)
    requires e.Harmless() && at <= e.p
    requires Covers(e, Quoted(e.h, at))
    ensures at <= |e.g|
    ensures Quoted(e.g, at) == Grown(Quoted(e.h, at), e.Delta())
  {
    hide Run;
    hide AllAccepted;
    hide Patch.Valid;
    hide Patch.Harmless;
    PatchShape(e);
    LinkBytes(e);
    if at < e.p {
      ByteBefore(e, at);
    }
    if Is(e.h, at, [SQUOTE, DQUOTE]) {
      RunOver(e, at + 1, Not(e.h[at]));
    }
  }

  lemma UrlKeywordPatched(e: Patch, start: nat)
    requires e.Harmless() && start < e.p && e.h[start] in [85, 117]
    requires Indented(e, RefreshUrl(e.h, start))
    ensures RefreshUrl(e.g, start) == Grown(RefreshUrl(e.h, start), e.Delta())
  {
    hide Run;
    hide AllAccepted;
    hide Quoted;
    hide Patch.Valid;
    hide Patch.Harmless;
    PatchShape(e);
    assert Is(e.h, start + 1, [82, 114]) && Is(e.h, start + 2, [76, 108]);
    var equals := Run(e.h, start + 3, Space);
    assert Is(e.h, equals, [EQUALS]);
    var at := Run(e.h, equals + 1, Space);
    ByteBefore(e, start);
    ByteBefore(e, start + 1);
    ByteBefore(e, start + 2);
    ByteBefore(e, equals);
    RunUpTo(e, start + 3, Space);
    RunUpTo(e, equals + 1, Space);
    QuotedPatched(e, at);
  }

  lemma RefreshUrlPatched(e: Patch, start: nat)
    requires e.Harmless() && start <= e.p
    requires Indented(e, RefreshUrl(e.h, start))
    ensures start < |e.g|
    ensures RefreshUrl(e.g, start) == Grown(RefreshUrl(e.h, start), e.Delta())
  {
    hide Run;
    hide AllAccepted;
    hide Quoted;
    hide Patch.Valid;
    hide Patch.Harmless;
    PatchShape(e);
    LinkBytes(e);
    if start == e.p {
      assert Quoted(e.g, start) == HtmlScan.Span(start, |e.g|) by { NotQuoted(e.g, start); }
    } else {
      ByteBefore(e, start);
      if e.h[start] in [85, 117] {
        UrlKeywordPatched(e, start);
      } else {
        QuotedPatched(e, start);
      }
    }
  }

  lemma NotQuoted(c: seq<byte>, at: nat)
    requires at < |c| && c[at] == 104
    ensures Quoted(c, at) == HtmlScan.Span(at, |c|)
  {}

  /** The declarative refresh steps find the new URL where they found the old one. */
  lemma RefreshPatched(e: Patch)
    requires e.Harmless()
    requires Refresh(e.h).Some? && Indented(e, Refresh(e.h).value)
    ensures Refresh(e.g) == Some(Grown(Refresh(e.h).value, e.Delta()))
  {
    hide RefreshStart;
    hide RefreshUrl;
    hide Patch.Valid;
    hide Patch.Harmless;
    PatchShape(e);
    RefreshStartPatched(e);
    RefreshUrlPatched(e, RefreshStart(e.h).value);
  }

  // ----- the slot of the edited tag

  /** Attributes stand one after another. */
  predicate InSequence(list: seq<Attribute>) {
    forall i, j :: 0 <= i < j < |list| ==> list[i].value.hi <= list[j].name.lo
  }

  lemma {:induction false} ReadInSequence(h: seq<byte>, x: nat)
    requires x <= |h| && ReadAttributes(h, x).Closed?
    ensures InSequence(ReadAttributes(h, x).list)
    decreases |h| - x
  {
    hide NextAttribute;
    var t := NextAttribute(h, x);
    if t.Reads? {
      ReadInSequence(h, t.next);
    }
  }

  /** The span lies before or after the replaced bytes. */
  predicate Apart(e: Patch, s: HtmlScan.Span) {
    s.lo <= s.hi <= |e.h| && (s.hi <= e.p || e.q <= s.lo)
  }

  lemma SliceApart(e: Patch, s: HtmlScan.Span)
    requires e.Valid() && Apart(e, s)
    ensures InBounds(e.g, e.Span(s)) && Slice(e.g, e.Span(s)) == Slice(e.h, s)
  {
    Windows(e);
    if s.hi <= e.p {
      SliceSame(e.Before(), s);
    } else {
      SliceSame(e.After(), s);
    }
  }

  /** The edit is inside the value of attribute `k` of this list. */
  predicate EditsAttribute(e: Patch, list: seq<Attribute>, lo: nat, hi: nat, k: nat) {
    k < |list| && Covers(e, list[k].value) && Within(list, lo, hi) && hi <= |e.h| && InSequence(list)
  }

  lemma OthersApart(e: Patch, list: seq<Attribute>, lo: nat, hi: nat, k: nat)
    requires e.Valid() && EditsAttribute(e, list, lo, hi, k)
    ensures forall i :: 0 <= i < |list| ==> Apart(e, list[i].name)
    ensures forall i :: 0 <= i < |list| && i != k ==> Apart(e, list[i].value)
  {}

  lemma FieldsPatched(e: Patch, list: seq<Attribute>, lo: nat, hi: nat, k: nat, field: Field)
    requires e.Valid() && EditsAttribute(e, list, lo, hi, k)
    ensures AttributesIn(e.h, list) && AttributesIn(e.g, PatchAttributes(e, list))
    ensures FirstNamed(e.g, PatchAttributes(e, list), field) == FirstNamed(e.h, list, field)
  {
    hide FirstNamed;
    hide EqIgnoreCase;
    hide Apart;
    hide Patch.Valid;
    EditedBounds(e, list, lo, hi, k);
    OthersApart(e, list, lo, hi, k);
    forall i | 0 <= i < |list|
      ensures var b := PatchAttributes(e, list)[i];
              && InBounds(e.g, b.name) && InBounds(e.g, b.value)
              && Slice(e.g, b.name) == Slice(e.h, list[i].name)
    {
      SliceApart(e, list[i].name);
      if i != k {
        SliceApart(e, list[i].value);
      }
    }
    FirstNamedSame(e.h, e.g, list, PatchAttributes(e, list), field);
  }

  lemma EditedBounds(e: Patch, list: seq<Attribute>, lo: nat, hi: nat, k: nat)
    requires e.Valid() && EditsAttribute(e, list, lo, hi, k)
    ensures AttributesIn(e.h, list)
    ensures InBounds(e.g, e.Span(list[k].value))
  {}

  lemma SliceOfPatch(e: Patch, lo: nat, hi: nat)
    requires e.Valid() && lo <= e.p && e.q <= hi <= |e.h|
    ensures hi + e.Delta() <= |e.g|
    ensures e.g[lo..hi + e.Delta()] == e.h[lo..hi][..e.p - lo] + e.text + e.h[lo..hi][e.q - lo..]
    ensures e.h[lo..hi][e.p - lo..e.q - lo] == e.h[e.p..e.q]
  {
    var s := e.h[lo..hi];
    assert s[..e.p - lo] == e.h[lo..e.p] && s[e.q - lo..] == e.h[e.q..hi];
    assert e.g[..e.p] == e.h[..e.p];
    assert e.g[lo..e.p] == e.h[lo..e.p];
    assert e.g[e.p..e.p + |e.text|] == e.text;
    assert e.g[e.p + |e.text|..] == e.h[e.q..];
    assert e.g[e.p + |e.text|..hi + e.Delta()] == e.h[e.q..hi];
  }

  /** The value of the edited attribute, on its own, has the same edit. */
  function Inside(e: Patch, s: HtmlScan.Span): Patch
    requires e.Valid() && s.lo <= e.p && e.q <= s.hi <= |e.h|
  {
    SliceOfPatch(e, s.lo, s.hi);
    Patch(Slice(e.h, s), e.g[s.lo..s.hi + e.Delta()], e.p - s.lo, e.q - s.lo, e.text)
  }

  lemma InsideHarmless(e: Patch, s: HtmlScan.Span)
    requires e.Harmless() && s.lo <= e.p && e.q <= s.hi <= |e.h|
    ensures Inside(e, s).Harmless()
  {
    hide NoNewBytes;
    hide StartsWith;
    SliceOfPatch(e, s.lo, s.hi);
  }

  /** What it takes for a meta element to have a slot. */
  predicate Refreshes(h: seq<byte>, list: seq<Attribute>, j: nat, k: nat, url: HtmlScan.Span) {
    && AttributesIn(h, list) && j < |list| && k < |list|
    && j == FirstNamed(h, list, HttpEquiv) && k == FirstNamed(h, list, Content)
    && NameIs(h, list[j].value, REFRESH)
    && Refresh(Slice(h, list[k].value)) == Some(url)
  }

  lemma RefreshesIff(h: seq<byte>, list: seq<Attribute>)
    requires AttributesIn(h, list)
    ensures var j, k := FirstNamed(h, list, HttpEquiv), FirstNamed(h, list, Content);
            && (MetaSlot(h, list).Some? ==> k < |list| && Refresh(Slice(h, list[k].value)).Some? && Refreshes(h, list, j, k, Refresh(Slice(h, list[k].value)).value))
            && forall url :: Refreshes(h, list, j, k, url) ==>
                      MetaSlot(h, list) == Some(HtmlScan.Span(list[k].value.lo + url.lo, list[k].value.lo + url.hi))
  {
    hide EqIgnoreCase;
    hide Refresh;
    hide FirstNamed;
  }

  /** The edited content is still a refresh value. */
  lemma ContentPatched(e: Patch, content: HtmlScan.Span)
    requires e.Harmless() && content.lo <= e.p && e.q <= content.hi <= |e.h|
    requires var url := Refresh(Slice(e.h, content));
             url.Some? && Indented(e, HtmlScan.Span(content.lo + url.value.lo, content.lo + url.value.hi))
    ensures InBounds(e.g, e.Span(content))
    ensures var url := Refresh(Slice(e.h, content)).value;
            Refresh(Slice(e.g, e.Span(content))) == Some(Grown(url, e.Delta()))
  {
    hide Refresh;
    hide Indented;
    hide Patch.Harmless;
    hide Patch.Valid;
    PatchShape(e);
    InsideHarmless(e, content);
    InnerIndented(e, content, Refresh(Slice(e.h, content)).value, Inside(e, content));
    RefreshPatched(Inside(e, content));
  }

  lemma RefreshesPatched(e: Patch, list: seq<Attribute>, lo: nat, hi: nat, j: nat, k: nat, url: HtmlScan.Span)
    requires e.Harmless() && EditsAttribute(e, list, lo, hi, k)
    requires Refreshes(e.h, list, j, k, url)
    requires Indented(e, HtmlScan.Span(list[k].value.lo + url.lo, list[k].value.lo + url.hi))
    ensures Refreshes(e.g, PatchAttributes(e, list), j, k, Grown(url, e.Delta()))
  {
    hide FirstNamed;
    hide IsFirstNamed;
    hide Refresh;
    hide Within;
    hide InSequence;
    hide EqIgnoreCase;
    hide Apart;
    hide Indented;
    hide AttributesIn;
    hide Patch.Harmless;
    hide Patch.Valid;
    PatchShape(e);
    FieldsPatched(e, list, lo, hi, k, HttpEquiv);
    FieldsPatched(e, list, lo, hi, k, Content);
    OthersApart(e, list, lo, hi, k);
    DifferentFields(e.h, list);
    SliceApart(e, list[j].value);
    ContentPatched(e, list[k].value);
  }

  lemma MetaSlotPatched(e: Patch, list: seq<Attribute>, lo: nat, hi: nat, k: nat)
    requires e.Harmless() && EditsAttribute(e, list, lo, hi, k)
    requires AttributesIn(e.h, list) && MetaSlot(e.h, list).Some?
    requires k == FirstNamed(e.h, list, Content) && Indented(e, MetaSlot(e.h, list).value)
    ensures AttributesIn(e.g, PatchAttributes(e, list))
    ensures MetaSlot(e.g, PatchAttributes(e, list)) == Some(e.Span(MetaSlot(e.h, list).value))
  {
    hide MetaSlot;
    hide FirstNamed;
    hide IsFirstNamed;
    hide Refresh;
    hide Within;
    hide InSequence;
    hide Refreshes;
    hide AttributesIn;
    hide Patch.Harmless;
    hide Patch.Valid;
    PatchShape(e);
    RefreshesIff(e.h, list);
    FieldsPatched(e, list, lo, hi, k, HttpEquiv);
    FieldsPatched(e, list, lo, hi, k, Content);
    RefreshesIff(e.g, PatchAttributes(e, list));
    RefreshesPatched(e, list, lo, hi, FirstNamed(e.h, list, HttpEquiv), k, Refresh(Slice(e.h, list[k].value)).value);
  }

  lemma DifferentFields(h: seq<byte>, list: seq<Attribute>)
    requires AttributesIn(h, list)
    requires FirstNamed(h, list, HttpEquiv) < |list|
    ensures FirstNamed(h, list, HttpEquiv) != FirstNamed(h, list, Content)
  {
    hide FirstNamed;
  }

  lemma InnerIndented(e: Patch, content: HtmlScan.Span, url: HtmlScan.Span, inner: Patch)
    requires e.Valid() && content.lo <= content.hi <= |e.h|
    requires inner.h == Slice(e.h, content) && content.lo <= e.p && e.q <= content.hi
    requires inner.p == e.p - content.lo && inner.q == e.q - content.lo
    requires Indented(e, HtmlScan.Span(content.lo + url.lo, content.lo + url.hi))
    ensures Indented(inner, url)
  {
    forall i | url.lo <= i < inner.p
      ensures IsSpace(inner.h[i])
    {
      assert inner.h[i] == e.h[content.lo + i];
    }
  }

  /** The attribute that holds the slot of a tag with this name. */
  function SlotIndex(h: seq<byte>, name: HtmlScan.Span, list: seq<Attribute>): nat
    requires InBounds(h, name) && AttributesIn(h, list)
  {
    if NameIs(h, name, A) || NameIs(h, name, AREA) then FirstNamed(h, list, Href)
    else if NameIs(h, name, FORM) then FirstNamed(h, list, Action)
    else FirstNamed(h, list, Content)
  }

  lemma SlotInAttribute(h: seq<byte>, name: HtmlScan.Span, list: seq<Attribute>)
    requires InBounds(h, name) && AttributesIn(h, list) && UrlSlot(h, name, list).Some?
    ensures var k, slot := SlotIndex(h, name, list), UrlSlot(h, name, list).value;
            k < |list| && list[k].value.lo <= slot.lo <= slot.hi <= list[k].value.hi
  {
    hide EqIgnoreCase;
    hide FirstNamed;
    hide IsFirstNamed;
    hide Refresh;
  }

  lemma UrlSlotPatched(e: Patch, name: HtmlScan.Span, list: seq<Attribute>, lo: nat, hi: nat, k: nat)
    requires e.Harmless() && EditsAttribute(e, list, lo, hi, k)
    requires name.lo <= name.hi <= e.p
    requires AttributesIn(e.h, list) && UrlSlot(e.h, name, list).Some?
    requires k == SlotIndex(e.h, name, list) && Indented(e, UrlSlot(e.h, name, list).value)
    ensures InBounds(e.g, name) && AttributesIn(e.g, PatchAttributes(e, list))
    ensures UrlSlot(e.g, name, PatchAttributes(e, list)) == Some(e.Span(UrlSlot(e.h, name, list).value))
    ensures Slice(e.g, name) == Slice(e.h, name)
  {
    hide EqIgnoreCase;
    hide FirstNamed;
    hide IsFirstNamed;
    hide MetaSlot;
    hide Within;
    hide InSequence;
    hide AttributesIn;
    hide Patch.Harmless;
    hide Patch.Valid;
    PatchShape(e);
    SliceApart(e, name);
    FieldsPatched(e, list, lo, hi, k, Href);
    FieldsPatched(e, list, lo, hi, k, Action);
    if NameIs(e.h, name, A) || NameIs(e.h, name, AREA) || NameIs(e.h, name, FORM) {
    } else {
      MetaSlotPatched(e, list, lo, hi, k);
    }
  }

  /** The edited start tag: its slot ends later, and so does everything after it. */
  lemma StartTagPatched(e: Patch, x: nat)
    requires e.Harmless() && x <= e.p
    requires var piece := StartTagAt(e.h, x); piece.slot.Some? && Indented(e, piece.slot.value)
    ensures x <= |e.g|
    ensures var piece := StartTagAt(e.h, x);
            StartTagAt(e.g, x) == Piece(Some(e.Span(piece.slot.value)), e.To(piece.end))
  {
    hide Tagged;
    hide UrlSlot;
    hide SlotIndex;
    hide TextEnd;
    hide PatchAttributes;
    hide Indented;
    hide Patch.Harmless;
    hide Patch.Valid;
    PatchShape(e);
    var t := Tagged(e.h, x);
    var k := SlotIndex(e.h, t.name, t.attributes);
    SlotInAttribute(e.h, t.name, t.attributes);
    TagInSequence(e.h, x);
    SlotCovers(e, UrlSlot(e.h, t.name, t.attributes).value, t.attributes[k].value);
    EditInTag(e, t, k);
    TagPatched(e, x, k);
    UrlSlotPatched(e, t.name, t.attributes, t.name.hi, t.end, k);
    TextPatched(e, Slice(e.h, t.name), t.end);
  }

  lemma SlotCovers(e: Patch, slot: HtmlScan.Span, value: HtmlScan.Span)
    requires Indented(e, slot) && value.lo <= slot.lo && slot.hi <= value.hi
    ensures Covers(e, value)
  {}

  lemma TagInSequence(h: seq<byte>, x: nat)
    requires x <= |h| && Tagged(h, x).Tag?
    ensures InSequence(Tagged(h, x).attributes)
  {
    hide ReadAttributes;
    ReadInSequence(h, Run(h, x, NameByte));
  }

  lemma EditInTag(e: Patch, t: Scanned, k: nat)
    requires t.Tag? && k < |t.attributes| && Covers(e, t.attributes[k].value) && InSequence(t.attributes)
    requires Within(t.attributes, t.name.hi, t.end) && t.end <= |e.h| && e.p < e.q
    ensures EditsAttribute(e, t.attributes, t.name.hi, t.end, k)
    ensures t.name.hi <= e.p && e.q <= t.end
  {}

  lemma TextPatched(e: Patch, name: seq<byte>, end: nat)
    requires e.Valid() && e.q <= end <= |e.h|
    ensures e.To(end) <= |e.g|
    ensures TextEnd(e.g, name, e.To(end)) == e.To(TextEnd(e.h, name, end))
  {
    hide TextEnd;
    Windows(e);
    TextEndSame(e.After(), name, end);
  }

  // ----- one edit of a document

  /** The last edit of a document, as a patch. */
  function LastPatch(h: seq<byte>, es: seq<Edit>): Patch
    requires Ordered(h, es) && es != []
  {
    var last := es[|es| - 1];
    Patch(h, h[..last.start] + last.text + h[last.end..], last.start, last.end, last.text)
  }

  lemma EditIsHarmless(h: seq<byte>, slot: Option<HtmlScan.Span>, portal: Portal)
    requires portal.Valid()
    requires slot.Some? ==> InBounds(h, slot.value)
    requires SlotEdits(h, slot, portal) != []
    ensures Ordered(h, SlotEdits(h, slot, portal)) && slot.Some?
    ensures var e := LastPatch(h, SlotEdits(h, slot, portal));
            e.Harmless() && Indented(e, slot.value)
  {
    hide RewriteOf;
    hide SlotEdits;
    hide NoNewBytes;
    SlotEditsAre(h, slot, portal);
    var es := SlotEdits(h, slot, portal);
    RewriteIsHarmless(h[es[0].start..es[0].end], portal);
    SlotEditIndented(h, slot, portal);
  }

  lemma SlotEditIndented(h: seq<byte>, slot: Option<HtmlScan.Span>, portal: Portal)
    requires slot.Some? ==> InBounds(h, slot.value)
    requires SlotEdits(h, slot, portal) != []
    ensures slot.Some?
    ensures forall i :: slot.value.lo <= i < SlotEdits(h, slot, portal)[0].start ==> i < |h| && IsSpace(h[i])
  {
    hide RewriteOf;
    var v := Slice(h, slot.value);
    assert forall i :: slot.value.lo <= i < slot.value.hi ==> h[i] == v[i - slot.value.lo];
  }

  /** The slot that was edited holds nothing to rewrite. */
  lemma EditedSlotKeeps(e: Patch, slot: HtmlScan.Span, portal: Portal)
    requires e.Harmless() && Indented(e, slot) && slot.hi <= |e.h|
    ensures InBounds(e.g, e.Span(slot)) && SlotEdits(e.g, Some(e.Span(slot)), portal) == []
  {
    hide NoNewBytes;
    Windows(e);
    var s := e.Span(slot);
    var v := Slice(e.g, s);
    LinkBytes(e);
    forall i | 0 <= i < e.p - s.lo
      ensures IsSpace(v[i])
    {
      assert v[i] == e.h[s.lo + i];
    }
    assert v[e.p - s.lo] == 104;
    RunIs(v, 0, Space, e.p - s.lo);
    NotALink(e.g, s, e.p, portal);
  }

  lemma KeepsOther(candidate: seq<byte>, portal: Portal)
    requires candidate != [] ==> candidate[0] == 104
    ensures RewriteOf(candidate, portal) == Keep
  {
    hide TargetOf;
    if |candidate| >= |SCHEME| {
      assert candidate[..|SCHEME|][0] != SCHEME[0];
    }
  }

  lemma NotALink(g: seq<byte>, s: HtmlScan.Span, p: nat, portal: Portal)
    requires InBounds(g, s) && s.lo <= p < s.hi && g[p] == 104
    requires Run(Slice(g, s), 0, Space) == p - s.lo
    ensures SlotEdits(g, Some(s), portal) == []
  {
    hide Run;
    hide AllAccepted;
    hide RewriteOf;
    hide TrimEnd;
    var t := Trimmed(Slice(g, s));
    KeepsOther(g[s.lo + t.lo..s.lo + t.hi], portal);
  }

  /** Where no edits are left, the same text after an edit has none either. */
  lemma {:induction false} NoEditsAfter(w: Window, x: nat, portal: Portal)
    requires w.Valid() && w.Whole() && w.lo <= x <= w.hi
    requires EditsFrom(w.h, x, portal) == []
    ensures EditsFrom(w.g, w.To(x), portal) == []
    decreases |w.h| - x
  {
    hide MarkupAt;
    hide SlotEdits;
    hide Run;
    hide AllAccepted;
    if x < |w.h| {
      RunSame(w, x, Not(LT));
      var lt := Run(w.h, x, Not(LT));
      if lt < |w.h| {
        var piece := MarkupAt(w.h, lt + 1);
        MarkupSame(w, lt + 1);
        SlotWithin(w.h, lt + 1);
        SlotEditsSame(w, piece.slot, portal);
        NoEditsAfter(w, piece.end, portal);
      } else {
        AtEnd(w.g, portal);
      }
    }
  }

  lemma AtEnd(g: seq<byte>, portal: Portal)
    ensures MarkupAt(g, |g| + 1) == Piece(None, |g|)
    ensures SlotEdits(g, None, portal) == []
  {}

  /** The rest of the document after the edited piece moves, and still has no edits. */
  lemma QuietAfter(e: Patch, x: nat, portal: Portal)
    requires e.Valid() && e.q <= x <= |e.h|
    requires EditsFrom(e.h, x, portal) == []
    ensures e.To(x) <= |e.g| && EditsFrom(e.g, e.To(x), portal) == []
  {
    hide EditsFrom;
    Windows(e);
    NoEditsAfter(e.After(), x, portal);
  }

  /** Once its only link is replaced, a piece has nothing to rewrite, and neither has the rest. */
  lemma QuietPiece(e: Patch, at: nat, lt: nat, piece: Piece, portal: Portal)
    requires lt + 1 < |e.h| && IsAlpha(e.h[lt + 1])
    requires lt == Run(e.h, at, Not(LT)) && piece == MarkupAt(e.h, lt + 1)
    requires piece.slot.Some? && Indented(e, piece.slot.value)
    requires lt + 1 < piece.slot.value.lo && piece.slot.value.hi < piece.end
    requires EditsFrom(e.h, piece.end, portal) == []
    requires e.Harmless() && lt < e.p
    ensures at <= |e.g| && EditsFrom(e.g, at, portal) == []
  {
    hide MarkupAt;
    hide SlotEdits;
    hide EditsFrom;
    hide Run;
    hide AllAccepted;
    hide Patch.Harmless;
    hide Patch.Valid;
    PatchShape(e);
    RunUpTo(e, at, Not(LT));
    MarkupPatched(e, lt + 1);
    EditedSlotKeeps(e, piece.slot.value, portal);
    QuietAfter(e, piece.end, portal);
    EditsUnfold(e.g, at, portal);
  }

  /** The piece that holds the last edit of a document: after the edit it has none. */
  lemma LastPiece(h: seq<byte>, at: nat, portal: Portal)
    requires portal.Valid() && at < |h|
    requires var piece := MarkupAt(h, Run(h, at, Not(LT)) + 1);
             SlotEdits(h, piece.slot, portal) != [] && EditsFrom(h, piece.end, portal) == []
    ensures var piece := MarkupAt(h, Run(h, at, Not(LT)) + 1);
            var es := SlotEdits(h, piece.slot, portal);
            && |es| == 1 && Ordered(h, es)
            && at <= |LastPatch(h, es).g|
            && EditsFrom(LastPatch(h, es).g, at, portal) == []
  {
    hide MarkupAt;
    hide SlotEdits;
    hide EditsFrom;
    hide Run;
    hide AllAccepted;
    hide RewriteOf;
    hide StartsWith;
    hide Patch.Harmless;
    hide Patch.Valid;
    var lt := Run(h, at, Not(LT));
    var piece := MarkupAt(h, lt + 1);
    SlotWithin(h, lt + 1);
    SlotEditsAre(h, piece.slot, portal);
    EditIsHarmless(h, piece.slot, portal);
    var e := LastPatch(h, SlotEdits(h, piece.slot, portal));
    QuietPiece(e, at, lt, piece, portal);
  }

  lemma EditsUnfold(h: seq<byte>, at: nat, portal: Portal)
    requires at < |h|
    ensures var piece := MarkupAt(h, Run(h, at, Not(LT)) + 1);
            EditsFrom(h, at, portal) == SlotEdits(h, piece.slot, portal) + EditsFrom(h, piece.end, portal)
  {
    hide MarkupAt;
    hide SlotEdits;
    hide Run;
  }

  lemma MarkupPatched(e: Patch, x: nat)
    requires e.Harmless() && x <= e.p
    requires var piece := MarkupAt(e.h, x);
             && piece.slot.Some? && Indented(e, piece.slot.value)
             && IsAlpha(e.h[x]) && x < piece.slot.value.lo && piece.slot.value.hi < piece.end
    ensures x < |e.g|
    ensures var piece := MarkupAt(e.h, x);
            MarkupAt(e.g, x) == Piece(Some(e.Span(piece.slot.value)), e.To(piece.end))
  {
    hide StartTagAt;
    hide CommentFrom;
    hide Past;
    hide EndTag;
    hide Patch.Harmless;
    hide Patch.Valid;
    PatchShape(e);
    StartTagPatched(e, x);
    ByteBefore(e, x);
  }

  /** An edit further on leaves a piece of markup, and the edit in it, as they are. */
  lemma EarlierPiece(e: Patch, at: nat, portal: Portal)
    requires e.Valid() && at < |e.h|
    requires MarkupAt(e.h, Run(e.h, at, Not(LT)) + 1).end < e.p
    ensures at < |e.g|
    ensures var x, y := Run(e.h, at, Not(LT)) + 1, Run(e.g, at, Not(LT)) + 1;
            && MarkupAt(e.g, y) == MarkupAt(e.h, x)
            && SlotEdits(e.g, MarkupAt(e.g, y).slot, portal) == SlotEdits(e.h, MarkupAt(e.h, x).slot, portal)
  {
    hide MarkupAt;
    hide SlotEdits;
    hide Run;
    hide AllAccepted;
    hide Accept.Has;
    hide Patch.Valid;
    hide Window.Valid;
    BeforeWindow(e);
    var w := e.Before();
    var lt := Run(e.h, at, Not(LT));
    RunSame(w, at, Not(LT));
    SlotWithin(e.h, lt + 1);
    MarkupSame(w, lt + 1);
    SlotEditsSame(w, MarkupAt(e.h, lt + 1).slot, portal);
  }

  lemma BeforeWindow(e: Patch)
    requires e.Valid()
    ensures e.Before().Valid() && e.p <= |e.g| && e.p < |e.h|
  {}

  /** Making the last edit of a document leaves exactly the edits before it. */
  lemma {:induction false} LastEdit(h: seq<byte>, at: nat, portal: Portal)
    requires portal.Valid() && at <= |h|
    requires EditsFrom(h, at, portal) != [] && Ordered(h, EditsFrom(h, at, portal))
    ensures var es := EditsFrom(h, at, portal);
            var g := LastPatch(h, es).g;
            at <= |g| && EditsFrom(g, at, portal) == es[..|es| - 1]
    decreases |h| - at
  {
    hide MarkupAt;
    hide SlotEdits;
    hide EditsFrom;
    hide Run;
    hide AllAccepted;
    EditsAtEnd(h, portal);
    EditsUnfold(h, at, portal);
    var piece := MarkupAt(h, Run(h, at, Not(LT)) + 1);
    var made, rest := SlotEdits(h, piece.slot, portal), EditsFrom(h, piece.end, portal);
    if rest == [] {
      assert made + rest == made;
      LastPiece(h, at, portal);
    } else {
      EditsOrdered(h, piece.end, portal);
      LastEdit(h, piece.end, portal);
      var e := LastPatch(h, rest);
      assert e == LastPatch(h, made + rest);
      EarlierPiece(e, at, portal);
      EditsUnfold(e.g, at, portal);
      assert (made + rest)[..|made + rest| - 1] == made + rest[..|rest| - 1];
    }
  }

  lemma EditsAtEnd(h: seq<byte>, portal: Portal)
    ensures EditsFrom(h, |h|, portal) == []
  {}

  /** Making the last edit first and the others afterwards gives the same page. */
  lemma EditsCommute(h: seq<byte>, es: seq<Edit>)
    requires Ordered(h, es) && es != []
    ensures var g := LastPatch(h, es).g;
            var init := es[..|es| - 1];
            Ordered(g, init) && Edited(g, init) == Edited(h, es)
  {
    hide Written;
    hide Ordered;
    var e := LastPatch(h, es);
    var init := es[..|es| - 1];
    InitOrdered(h, es);
    WrittenUnfolds(h, es);
    WrittenSame(h, e.g, init, e.p);
    PatchTail(h, e.text, Cursor(init), e.p, e.q);
    var w, a, b := Written(h, init), h[Cursor(init)..e.p], h[e.q..];
    assert w + (a + e.text + b) == w + a + e.text + b;
  }

  lemma PatchTail(h: seq<byte>, text: seq<byte>, c: nat, p: nat, q: nat)
    requires c <= p <= q <= |h|
    ensures (h[..p] + text + h[q..])[c..] == h[c..p] + text + h[q..]
  {}

  lemma WrittenUnfolds(h: seq<byte>, es: seq<Edit>)
    requires Ordered(h, es) && es != []
    ensures var init, last := es[..|es| - 1], es[|es| - 1];
            Ordered(h, init) && Cursor(init) <= last.start <= last.end <= |h|
            && Written(h, es) == Written(h, init) + h[Cursor(init)..last.start] + last.text
  {
    var init := es[..|es| - 1];
    assert init != [] ==> init[|init| - 1] == es[|es| - 2];
  }

  lemma PrefixSlice(h: seq<byte>, g: seq<byte>, p: nat, a: nat, b: nat)
    requires a <= b <= p <= |h| && p <= |g| && h[..p] == g[..p]
    ensures h[a..b] == g[a..b]
  {
    assert h[a..b] == h[..p][a..b];
    assert g[a..b] == g[..p][a..b];
  }

  lemma InitOrdered(h: seq<byte>, es: seq<Edit>)
    requires Ordered(h, es) && es != []
    ensures var g, init, p := LastPatch(h, es).g, es[..|es| - 1], es[|es| - 1].start;
            && Ordered(g, init) && Ordered(h, init) && Cursor(init) <= p < es[|es| - 1].end <= |h|
            && p <= |g| && h[..p] == g[..p]
  {
    var init := es[..|es| - 1];
    assert forall i :: 0 <= i < |init| ==> init[i] == es[i];
    EndsGrow(h, init);
  }

  lemma {:induction false} EndsGrow(h: seq<byte>, es: seq<Edit>)
    requires Ordered(h, es)
    ensures forall i :: 0 <= i < |es| ==> es[i].end <= Cursor(es)
  {
    if |es| > 1 {
      var init := es[..|es| - 1];
      EndsGrow(h, init);
      assert forall i :: 0 <= i < |init| ==> init[i] == es[i];
      assert Cursor(init) == es[|es| - 2].end;
    }
  }

  /** What is written up to the cursor depends only on the document up to there. */
  lemma {:induction false} WrittenSame(h: seq<byte>, g: seq<byte>, es: seq<Edit>, p: nat)
    requires Ordered(h, es) && Ordered(g, es)
    requires p <= |h| && p <= |g| && h[..p] == g[..p] && Cursor(es) <= p
    ensures Written(g, es) == Written(h, es)
  {
    hide Written;
    hide Ordered;
    if es != [] {
      var init, last := es[..|es| - 1], es[|es| - 1];
      WrittenUnfolds(h, es);
      WrittenUnfolds(g, es);
      WrittenSame(h, g, init, p);
      PrefixSlice(h, g, p, Cursor(init), last.start);
    } else {
      WrittenNothing(h, g);
    }
  }

  lemma WrittenNothing(h: seq<byte>, g: seq<byte>)
    ensures Written(h, []) == Written(g, [])
  {}

  /** All edits made, none are left. */
  lemma {:induction false} EditsVanish(h: seq<byte>, portal: Portal)
    requires portal.Valid()
    ensures Ordered(h, EditsFrom(h, 0, portal))
    ensures EditsFrom(Edited(h, EditsFrom(h, 0, portal)), 0, portal) == []
    decreases |EditsFrom(h, 0, portal)|
  {
    hide EditsFrom;
    hide Written;
    EditsOrdered(h, 0, portal);
    var es := EditsFrom(h, 0, portal);
    if es == [] {
      assert Edited(h, es) == h by { NothingWritten(h); }
    } else {
      LastEdit(h, 0, portal);
      EditsCommute(h, es);
      EditsVanish(LastPatch(h, es).g, portal);
    }
  }

  lemma NothingWritten(h: seq<byte>)
    ensures Edited(h, []) == h
  {}

  /** Serving a rewritten page again changes nothing. */
  lemma RewritingIsIdempotent(h: seq<byte>, portal: Portal)
    requires portal.Valid()
    requires TransformOf(h, portal).Rewritten?
    ensures TransformOf(TransformOf(h, portal).page, portal) == Unchanged
  {
    hide EditsFrom;
    hide Written;
    EditsVanish(h, portal);
  }
}
