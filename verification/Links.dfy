/**
 The link rewriter (`transform` and `Links` in `gateway_links.rs`): which span of a start tag holds
 its link, which edits a document gets, and the single pass that writes them out.
 */
module Links {
  import opened Bytes
  import opened HtmlScan
  import opened PortalHost
  import opened LinkRewrite

  // ----- the refresh value of a meta element

  function Quoted(c: seq<byte>, at: nat): (s: Span)
    requires at <= |c|
    ensures at <= s.lo <= s.hi <= |c|
  {
    if !Is(c, at, [SQUOTE, DQUOTE]) then Span(at, |c|)
    else Span(at + 1, Run(c, at + 1, Not(c[at])))
  }

  function RefreshUrl(c: seq<byte>, start: nat): (s: Span)
    requires start < |c|
    ensures start <= s.lo <= s.hi <= |c|
  {
    if !Is(c, start, [85, 117]) then Quoted(c, start)
    else if !Is(c, start + 1, [82, 114]) || !Is(c, start + 2, [76, 108]) then Span(start, |c|)
    else
      var equals := Run(c, start + 3, Space);
      if !Is(c, equals, [EQUALS]) then Span(start, |c|)
      else Quoted(c, Run(c, equals + 1, Space))
  }

  /** Where the time of a refresh value ends and its URL starts; the length if there is no URL. */
  function RefreshStart(c: seq<byte>): (r: Option<nat>)
    ensures r.Some? ==> r.value <= |c|
  {
    var time := Run(c, 0, Space);
    var digits := Run(c, time, Digit);
    if digits == time && !Is(c, time, [DOT]) then None
    else
      var at := Run(c, digits, DigitOrDot);
      if at == |c| then Some(at)
      else if !Is(c, at, [SEMICOLON, COMMA, TAB, LF, FF, CR, SPACE]) then None
      else
        var gap := Run(c, at, Space);
        var next := if Is(c, gap, [SEMICOLON, COMMA]) then gap + 1 else gap;
        Some(Run(c, next, Space))
  }

  function Refresh(c: seq<byte>): (s: Option<Span>)
    ensures s.Some? ==> s.value.lo <= s.value.hi <= |c|
  {
    match RefreshStart(c)
    case None => None
    case Some(at) => if at == |c| then None else Some(RefreshUrl(c, at))
  }

  // ----- the slot of a start tag

  predicate NameIs(h: seq<byte>, name: Span, wanted: seq<byte>)
    requires InBounds(h, name)
  {
    EqIgnoreCase(Slice(h, name), wanted)
  }

  function MetaSlot(h: seq<byte>, list: seq<Attribute>): (s: Option<Span>)
    requires AttributesIn(h, list)
    ensures s.Some? ==> InBounds(h, s.value)
  {
    match FieldOf(h, list, HttpEquiv)
    case None => None
    case Some(equiv) =>
      if !NameIs(h, equiv, REFRESH) then None
      else match FieldOf(h, list, Content)
           case None => None
           case Some(content) =>
             match Refresh(Slice(h, content))
             case None => None
             case Some(url) => Some(Span(content.lo + url.lo, content.lo + url.hi))
  }

  function UrlSlot(h: seq<byte>, name: Span, list: seq<Attribute>): (s: Option<Span>)
    requires InBounds(h, name) && AttributesIn(h, list)
    ensures s.Some? ==> InBounds(h, s.value)
  {
    if NameIs(h, name, A) || NameIs(h, name, AREA) then FieldOf(h, list, Href)
    else if NameIs(h, name, FORM) then FieldOf(h, list, Action)
    else if NameIs(h, name, META) then MetaSlot(h, list)
    else None
  }

  /** `url_slot`, from the fields that the tag scanner kept. */
  method ChooseSlot(h: seq<byte>, name: Span, fields: seq<(Field, Span)>, ghost list: seq<Attribute>)
    returns (slot: Option<Span>)
    requires InBounds(h, name) && AttributesIn(h, list)
    requires forall f :: Kept(fields, f) == FieldOf(h, list, f)
    ensures slot == UrlSlot(h, name, list)
  {
    hide EqIgnoreCase;
    hide Refresh;
    if NameIs(h, name, A) || NameIs(h, name, AREA) {
      return Kept(fields, Href);
    }
    if NameIs(h, name, FORM) {
      return Kept(fields, Action);
    }
    if !NameIs(h, name, META) {
      return None;
    }
    var equiv := Kept(fields, HttpEquiv);
    if equiv.None? || !NameIs(h, equiv.value, REFRESH) {
      return None;
    }
    var content := Kept(fields, Content);
    if content.None? {
      return None;
    }
    var url := Refresh(Slice(h, content.value));
    if url.None? {
      return None;
    }
    slot := Some(Span(content.value.lo + url.value.lo, content.value.lo + url.value.hi));
  }

  // ----- the text after a start tag

  function RawName(name: seq<byte>, from: nat): (r: Option<seq<byte>>)
    requires from <= |RAW|
    decreases |RAW| - from
  {
    if from == |RAW| then None
    else if EqIgnoreCase(name, RAW[from]) then Some(RAW[from])
    else RawName(name, from + 1)
  }

  function TextEnd(h: seq<byte>, name: seq<byte>, end: nat): (r: nat)
    requires end <= |h|
    ensures end <= r <= |h|
  {
    match RawName(name, 0)
    case Some(raw) => RawEnd(h, end, raw)
    case None =>
      if EqIgnoreCase(name, SCRIPT) then ScriptEnd(h, end)
      else if EqIgnoreCase(name, PLAINTEXT) then |h|
      else end
  }

  // ----- one piece of markup

  /** What stands after a `<`: possibly a link slot, and where scanning resumes. */
  datatype Piece = Piece(slot: Option<Span>, end: nat)

  function StartTagAt(h: seq<byte>, at: nat): (p: Piece)
    requires at <= |h|
    ensures at <= p.end <= |h|
    ensures p.slot.Some? ==> InBounds(h, p.slot.value)
  {
    match Tagged(h, at)
    case Unterminated => Piece(None, |h|)
    case Tag(name, list, end) =>
      assert AttributesIn(h, list);
      Piece(UrlSlot(h, name, list), TextEnd(h, Slice(h, name), end))
  }

  function MarkupAt(h: seq<byte>, at: nat): (p: Piece)
    requires at <= |h| + 1
    ensures p.end <= |h|
    ensures if at <= |h| then at <= p.end else p.end == |h|
    ensures p.slot.Some? ==> InBounds(h, p.slot.value)
  {
    if at >= |h| then Piece(None, |h|)
    else if h[at] == BANG && StartsWith(h[at + 1..], [DASH, DASH]) then
      Piece(None, CommentFrom(h, at + 3, at + 3))
    else if h[at] == BANG || h[at] == QUESTION then Piece(None, Past(h, at, GT))
    else if h[at] == SLASH then Piece(None, EndTag(h, at + 1))
    else if IsAlpha(h[at]) then StartTagAt(h, at)
    else Piece(None, at)
  }

  // ----- the edits of a document

  /** `text` replaces the bytes from `start` to `end`. */
  datatype Edit = Edit(start: nat, end: nat, text: seq<byte>)

  function TrimEnd(v: seq<byte>, lo: nat, hi: nat): (r: nat)
    requires lo <= hi <= |v|
    ensures lo <= r <= hi
    ensures r > lo ==> !IsSpace(v[r - 1])
    ensures forall i :: r <= i < hi ==> IsSpace(v[i])
  {
    if lo < hi && IsSpace(v[hi - 1]) then TrimEnd(v, lo, hi - 1) else hi
  }

  /** `trim_ascii`, as the span of what is left. */
  function Trimmed(v: seq<byte>): (s: Span)
    ensures s.lo <= s.hi <= |v|
  {
    var lo := Run(v, 0, Space);
    Span(lo, TrimEnd(v, lo, |v|))
  }

  /** What is left starts and ends with something, and only space is cut off. */
  lemma TrimmedIs(v: seq<byte>)
    ensures var t := Trimmed(v);
            && (forall i :: 0 <= i < t.lo || t.hi <= i < |v| ==> IsSpace(v[i]))
            && (t.lo < t.hi ==> !IsSpace(v[t.lo]) && !IsSpace(v[t.hi - 1]))
  {
    hide Run;
    hide IsSpace;
    var lo := Run(v, 0, Space);
    forall i | 0 <= i < lo ensures IsSpace(v[i]) {
      assert Space.Has(v[i]);
    }
    assert lo < |v| ==> !Space.Has(v[lo]);
  }

  function SlotEdits(h: seq<byte>, slot: Option<Span>, portal: Portal): (es: seq<Edit>)
    requires slot.Some? ==> InBounds(h, slot.value)
  {
    match slot
    case None => []
    case Some(s) =>
      var t := Trimmed(Slice(h, s));
      var candidate := h[s.lo + t.lo..s.lo + t.hi];
      match RewriteOf(candidate, portal)
      case Keep => []
      case To(text) => [Edit(s.lo + t.lo, s.lo + t.hi, text)]
  }

  /** A slot gets at most one edit: of a span inside it that starts with `urma://`. */
  lemma SlotEditsAre(h: seq<byte>, slot: Option<Span>, portal: Portal)
    requires slot.Some? ==> InBounds(h, slot.value)
    ensures var es := SlotEdits(h, slot, portal);
            && |es| <= 1
            && (|es| == 1 ==>
                  && slot.Some?
                  && slot.value.lo <= es[0].start < es[0].end <= slot.value.hi
                  && StartsWith(h[es[0].start..es[0].end], SCHEME)
                  && RewriteOf(h[es[0].start..es[0].end], portal) == To(es[0].text))
  {
    hide RewriteOf;
    hide Trimmed;
  }

  function EditsFrom(h: seq<byte>, at: nat, portal: Portal): (es: seq<Edit>)
    requires at <= |h|
    decreases |h| - at
  {
    if at == |h| then []
    else
      var piece := MarkupAt(h, Run(h, at, Not(LT)) + 1);
      SlotEdits(h, piece.slot, portal) + EditsFrom(h, piece.end, portal)
  }

  // ----- writing the edits out

  predicate Ordered(h: seq<byte>, es: seq<Edit>) {
    && (forall i :: 0 <= i < |es| ==> es[i].start < es[i].end <= |h|)
    && (forall i :: 0 < i < |es| ==> es[i - 1].end <= es[i].start)
  }

  function Cursor(es: seq<Edit>): nat {
    if es == [] then 0 else es[|es| - 1].end
  }

  /** The document up to the cursor, with the edits made. */
  function Written(h: seq<byte>, es: seq<Edit>): seq<byte>
    requires Ordered(h, es)
  {
    if es == [] then []
    else
      var init, last := es[..|es| - 1], es[|es| - 1];
      assert init != [] ==> init[|init| - 1] == es[|es| - 2];
      Written(h, init) + h[Cursor(init)..last.start] + last.text
  }

  function Edited(h: seq<byte>, es: seq<Edit>): seq<byte>
    requires Ordered(h, es)
  {
    Written(h, es) + h[Cursor(es)..]
  }

  lemma UrlSlotWithin(h: seq<byte>, name: Span, list: seq<Attribute>, lo: nat, hi: nat)
    requires InBounds(h, name) && AttributesIn(h, list)
    requires forall i :: 0 <= i < |list| ==> lo < list[i].value.lo && list[i].value.hi < hi
    ensures var s := UrlSlot(h, name, list);
            s.Some? ==> lo < s.value.lo <= s.value.hi < hi
  {
    hide EqIgnoreCase;
    hide Refresh;
  }

  /** A slot lies inside a start tag: after its name and before its end. */
  lemma SlotWithin(h: seq<byte>, at: nat)
    requires at <= |h| + 1
    ensures var p := MarkupAt(h, at);
            p.slot.Some? ==> at < |h| && IsAlpha(h[at]) && at < p.slot.value.lo <= p.slot.value.hi < p.end
  {
    hide UrlSlot;
    hide TextEnd;
    hide Tagged;
    if at < |h| && Tagged(h, at).Tag? {
      var t := Tagged(h, at);
      UrlSlotWithin(h, t.name, t.attributes, at, t.end);
    }
  }

  /** The edits of a document are disjoint, in document order, and after where scanning started. */
  lemma {:induction false} EditsOrdered(h: seq<byte>, at: nat, portal: Portal)
    requires at <= |h|
    ensures Ordered(h, EditsFrom(h, at, portal))
    ensures forall i :: 0 <= i < |EditsFrom(h, at, portal)| ==> at < EditsFrom(h, at, portal)[i].start
    decreases |h| - at
  {
    hide MarkupAt;
    hide SlotEdits;
    hide Run;
    hide AllAccepted;
    hide Ordered;
    if at == |h| {
      NothingOrdered(h);
    } else {
      var lt := Run(h, at, Not(LT));
      var piece := MarkupAt(h, lt + 1);
      EditsOrdered(h, piece.end, portal);
      MadeWithin(h, lt + 1, portal);
      OrderedConcat(h, SlotEdits(h, piece.slot, portal), EditsFrom(h, piece.end, portal), piece.end);
    }
  }

  /** The edits of one piece of markup are ordered and lie inside it. */
  lemma MadeWithin(h: seq<byte>, at: nat, portal: Portal)
    requires at <= |h| + 1
    ensures var piece := MarkupAt(h, at);
            var made := SlotEdits(h, piece.slot, portal);
            && Ordered(h, made)
            && forall i :: 0 <= i < |made| ==> at < made[i].start && made[i].end <= piece.end
  {
    hide MarkupAt;
    hide SlotEdits;
    hide Ordered;
    var piece := MarkupAt(h, at);
    SlotWithin(h, at);
    SlotEditsAre(h, piece.slot, portal);
    AtMostOne(h, SlotEdits(h, piece.slot, portal));
  }

  /** Every edit replaces a link that `rewrite` rewrites, by what it is rewritten to. */
  lemma {:induction false} EditsAreRewrites(h: seq<byte>, at: nat, portal: Portal)
    requires at <= |h|
    ensures forall e :: e in EditsFrom(h, at, portal) ==>
                          e.start < e.end <= |h| && RewriteOf(h[e.start..e.end], portal) == To(e.text)
    decreases |h| - at
  {
    hide MarkupAt;
    hide SlotEdits;
    hide RewriteOf;
    hide Run;
    if at < |h| {
      var piece := MarkupAt(h, Run(h, at, Not(LT)) + 1);
      SlotWithin(h, Run(h, at, Not(LT)) + 1);
      SlotEditsAre(h, piece.slot, portal);
      EditsAreRewrites(h, piece.end, portal);
    }
  }

  lemma NothingOrdered(h: seq<byte>)
    ensures Ordered(h, [])
  {}

  lemma AtMostOne(h: seq<byte>, es: seq<Edit>)
    requires |es| <= 1 && forall i :: 0 <= i < |es| ==> es[i].start < es[i].end <= |h|
    ensures Ordered(h, es)
  {}

  lemma OrderedConcat(h: seq<byte>, a: seq<Edit>, b: seq<Edit>, mid: nat)
    requires Ordered(h, a) && Ordered(h, b)
    requires (forall i :: 0 <= i < |a| ==> a[i].end <= mid) && (forall i :: 0 <= i < |b| ==> mid < b[i].start)
    ensures Ordered(h, a + b)
  {
    var es := a + b;
    forall i | 0 <= i < |es| ensures es[i].start < es[i].end <= |h| {
      assert es[i] == if i < |a| then a[i] else b[i - |a|];
    }
    forall i | 0 < i < |es| ensures es[i - 1].end <= es[i].start {
      assert es[i] == if i < |a| then a[i] else b[i - |a|];
      assert es[i - 1] == if i - 1 < |a| then a[i - 1] else b[i - 1 - |a|];
    }
  }

  /** One edit past the cursor is written after the rest. */
  lemma WrittenGrows(h: seq<byte>, es: seq<Edit>, made: seq<Edit>)
    requires Ordered(h, es) && |made| == 1 && Cursor(es) <= made[0].start < made[0].end <= |h|
    ensures Ordered(h, es + made) && Cursor(es + made) == made[0].end
    ensures Written(h, es + made) == Written(h, es) + h[Cursor(es)..made[0].start] + made[0].text
  {
    assert (es + made)[..|es|] == es;
  }

  datatype Transformed = Unchanged | Rewritten(page: seq<byte>)

  /** What the portal serves for a page. */
  function TransformOf(h: seq<byte>, portal: Portal): Transformed {
    var es := EditsFrom(h, 0, portal);
    EditsOrdered(h, 0, portal);
    if es == [] then Unchanged else Rewritten(Edited(h, es))
  }

  /** The rewriter's state: the page written so far, and how far into the source that reaches. */
  class Rewriter {
    const html: seq<byte>
    const portal: Portal
    var output: seq<byte>
    var cursor: nat

    constructor (html: seq<byte>, portal: Portal)
      ensures this.html == html && this.portal == portal
      ensures Holds([])
    {
      this.html, this.portal := html, portal;
      output, cursor := [], 0;
    }

    ghost predicate Holds(es: seq<Edit>)
      reads this
    {
      && Ordered(html, es)
      && output == Written(html, es)
      && cursor == Cursor(es)
    }

    method Link(slot: Span, ghost es: seq<Edit>)
      requires Holds(es)
      requires InBounds(html, slot) && Cursor(es) <= slot.lo
      modifies this
      ensures Holds(es + SlotEdits(html, Some(slot), portal))
    {
      hide RewriteOf;
      hide Trimmed;
      hide Ordered;
      hide Written;
      hide StartsWith;
      ghost var made := SlotEdits(html, Some(slot), portal);
      SlotEditsAre(html, Some(slot), portal);
      var trimmed := Trimmed(Slice(html, slot));
      var start := slot.lo + trimmed.lo;
      var candidate := html[start..slot.lo + trimmed.hi];
      var rewrite := RewriteOf(candidate, portal);
      if rewrite.Keep? {
        assert es + made == es;
        return;
      }
      output := output + html[cursor..start];
      output := output + rewrite.text;
      cursor := start + |candidate|;
      WrittenGrows(html, es, made);
    }

    method StartTag(at: nat, ghost es: seq<Edit>) returns (end: nat)
      requires Holds(es)
      requires at < |html| && IsAlpha(html[at]) && Cursor(es) <= at
      modifies this
      ensures end == MarkupAt(html, at).end
      ensures Holds(es + SlotEdits(html, MarkupAt(html, at).slot, portal))
    {
      hide EqIgnoreCase;
      hide Written;
      hide SlotEdits;
      hide UrlSlot;
      hide RawEnd;
      hide ScriptEnd;
      hide Ordered;
      var nameEnd := FindRun(html, at, NameByte);
      var name := Span(at, nameEnd);
      var closed, tagEnd, fields := ScanTag(html, at);
      SlotEditsAre(html, None, portal);
      assert es + [] == es;
      if !closed {
        return |html|;
      }
      SlotWithin(html, at);
      var slot := ChooseSlot(html, name, fields, Tagged(html, at).attributes);
      if slot.Some? {
        Link(slot.value, es);
      }
      var raw := RawName(html[at..nameEnd], 0);
      if raw.Some? {
        end := ScanRaw(html, tagEnd, raw.value);
      } else if EqIgnoreCase(html[at..nameEnd], SCRIPT) {
        end := ScanScript(html, tagEnd);
      } else if EqIgnoreCase(html[at..nameEnd], PLAINTEXT) {
        end := |html|;
      } else {
        end := tagEnd;
      }
    }

    method Markup(at: nat, ghost es: seq<Edit>) returns (end: nat)
      requires Holds(es)
      requires at <= |html| + 1
      requires Cursor(es) <= at
      modifies this
      ensures end == MarkupAt(html, at).end
      ensures Holds(es + SlotEdits(html, MarkupAt(html, at).slot, portal))
    {
      hide Written;
      hide SlotEdits;
      hide Ordered;
      SlotEditsAre(html, None, portal);
      assert es + [] == es;
      if at >= |html| {
        return |html|;
      }
      var b := html[at];
      if b == BANG && StartsWith(html[at + 1..], [DASH, DASH]) {
        end := ScanComment(html, at + 3);
      } else if b == BANG || b == QUESTION {
        end := Past(html, at, GT);
      } else if b == SLASH {
        end := EndTag(html, at + 1);
      } else if IsAlpha(b) {
        end := StartTag(at, es);
      } else {
        end := at;
      }
    }

    method Finish(ghost es: seq<Edit>) returns (r: Transformed)
      requires Holds(es)
      ensures r == if es == [] then Unchanged else Rewritten(Edited(html, es))
    {
      if cursor == 0 {
        return Unchanged;
      }
      r := Rewritten(output + html[cursor..]);
    }
  }

  lemma EditsStep(h: seq<byte>, at: nat, portal: Portal, es: seq<Edit>)
    requires at < |h| && Cursor(es) <= at
    ensures var piece := MarkupAt(h, Run(h, at, Not(LT)) + 1);
            var made := SlotEdits(h, piece.slot, portal);
            && es + EditsFrom(h, at, portal) == es + made + EditsFrom(h, piece.end, portal)
            && Cursor(es + made) <= piece.end
            && at < piece.end
  {
    hide MarkupAt;
    hide SlotEdits;
    hide Run;
    hide RewriteOf;
    hide StartsWith;
    var lt := Run(h, at, Not(LT));
    var piece := MarkupAt(h, lt + 1);
    var made := SlotEdits(h, piece.slot, portal);
    SlotWithin(h, lt + 1);
    SlotEditsAre(h, piece.slot, portal);
    assert es + (made + EditsFrom(h, piece.end, portal)) == es + made + EditsFrom(h, piece.end, portal);
    if made == [] {
      assert es + made == es;
    }
  }

  lemma EditsEnd(h: seq<byte>, portal: Portal, es: seq<Edit>)
    requires Ordered(h, es)
    requires EditsFrom(h, 0, portal) == es + EditsFrom(h, |h|, portal)
    ensures TransformOf(h, portal) == if es == [] then Unchanged else Rewritten(Edited(h, es))
  {
    assert EditsFrom(h, |h|, portal) == [];
    assert es + [] == es;
  }

  /** The pass over a page. */
  method Transform(html: seq<byte>, portal: Portal) returns (r: Transformed)
    ensures r == TransformOf(html, portal)
  {
    hide MarkupAt;
    hide SlotEdits;
    hide EditsFrom;
    hide Written;
    hide Ordered;
    hide Run;
    hide TransformOf;
    var links := new Rewriter(html, portal);
    var at := 0;
    ghost var es: seq<Edit> := [];
    while at < |html|
      invariant at <= |html|
      invariant links.html == html && links.portal == portal
      invariant links.Holds(es) && Ordered(html, es) && Cursor(es) <= at
      invariant EditsFrom(html, 0, portal) == es + EditsFrom(html, at, portal)
      decreases |html| - at
    {
      var lt := FindRun(html, at, Not(LT));
      ghost var piece := MarkupAt(html, lt + 1);
      EditsStep(html, at, portal, es);
      at := links.Markup(lt + 1, es);
      es := es + SlotEdits(html, piece.slot, portal);
    }
    EditsEnd(html, portal, es);
    r := links.Finish(es);
  }
}
