/**
 Scanning is local: what a scanner finds between two positions depends on the bytes between them,
 wherever they stand. Every scanner of the portal has this property, so text that does not change
 is tokenized as before after an edit somewhere else.
 */
module LinkLocality {
  import opened Bytes
  import opened HtmlScan
  import opened PortalHost
  import opened LinkRewrite
  import opened Links

  /** The bytes of `h` from `lo` to `hi`, found in `g` moved by `d`. */
  datatype Window = Window(h: seq<byte>, g: seq<byte>, lo: nat, hi: nat, d: int) {
    predicate Valid() {
      && lo <= hi <= |h|
      && 0 <= lo + d && hi + d <= |g|
      && forall i :: lo <= i < hi ==> g[i + d] == h[i]
    }

    /** Both documents end with the window. */
    predicate Whole() {
      hi == |h| && hi + d == |g|
    }

    /** `r` was decided inside the window. */
    predicate Settles(r: nat) {
      r < hi || (Whole() && r == hi)
    }

    /** The position in `g` of a position of the window. */
    function To(x: nat): (y: nat)
      requires Valid() && lo <= x <= hi
      ensures y == x + d && y <= |g|
    {
      x + d
    }
  }

  lemma RunSame(w: Window, x: nat, accept: Accept)
    requires w.Valid() && w.lo <= x <= w.hi
    requires w.Settles(Run(w.h, x, accept))
    ensures Run(w.g, w.To(x), accept) == w.To(Run(w.h, x, accept))
  {
    var r := Run(w.h, x, accept);
    forall i | w.To(x) <= i < w.To(r)
      ensures accept.Has(w.g[i])
    {
      assert w.g[(i - w.d) + w.d] == w.h[i - w.d];
    }
    assert r < w.hi ==> w.g[r + w.d] == w.h[r];
    RunIs(w.g, w.To(x), accept, w.To(r));
  }

  lemma PastSame(w: Window, x: nat, b: byte)
    requires w.Valid() && w.lo <= x <= w.hi
    requires w.Settles(Past(w.h, x, b))
    ensures Past(w.g, w.To(x), b) == w.To(Past(w.h, x, b))
  {
    hide Run;
    hide AllAccepted;
    RunSame(w, x, Not(b));
  }

  // ----- tags

  /** A moved position; the moves below never take one below zero. */
  function Moved(x: nat, d: int): nat {
    if x + d < 0 then 0 else x + d
  }

  function MoveSpan(s: Span, d: int): Span {
    Span(Moved(s.lo, d), Moved(s.hi, d))
  }

  function MoveAttribute(a: Attribute, d: int): Attribute {
    Attribute(MoveSpan(a.name, d), MoveSpan(a.value, d))
  }

  function MoveValue(v: Value, d: int): Value {
    if v.Value? then Value(MoveSpan(v.span, d), Moved(v.next, d)) else OpenValue
  }

  function MoveTurn(t: Turn, d: int): Turn {
    match t
    case Starves => Starves
    case Closes(end) => Closes(Moved(end, d))
    case Reads(a, next) => Reads(MoveAttribute(a, d), Moved(next, d))
  }

  function MoveAttributes(list: seq<Attribute>, d: int): (r: seq<Attribute>)
    ensures |r| == |list|
    ensures forall i :: 0 <= i < |list| ==> r[i] == MoveAttribute(list[i], d)
  {
    if list == [] then [] else [MoveAttribute(list[0], d)] + MoveAttributes(list[1..], d)
  }

  function MoveRead(r: Attributes, d: int): Attributes {
    if r.Closed? then Closed(MoveAttributes(r.list, d), Moved(r.end, d)) else Open
  }

  function MoveTag(t: Scanned, d: int): Scanned {
    if t.Tag? then Tag(MoveSpan(t.name, d), MoveAttributes(t.attributes, d), Moved(t.end, d)) else Unterminated
  }

  // The position that each part of the tag scanner decides.
  function ValueEnd(h: seq<byte>, v: Value): nat {
    if v.Value? then v.next else |h|
  }

  function TurnEnd(h: seq<byte>, t: Turn): nat {
    match t
    case Starves => |h|
    case Closes(end) => end
    case Reads(_, next) => next
  }

  function ReadEnd(h: seq<byte>, x: nat): (r: nat)
    requires x <= |h|
    ensures x <= r <= |h|
  {
    var r := ReadAttributes(h, x);
    if r.Closed? then r.end else |h|
  }

  lemma ValueSame(w: Window, x: nat)
    requires w.Valid() && w.lo <= x <= w.hi
    requires w.Settles(ValueEnd(w.h, AttributeValue(w.h, x)))
    ensures AttributeValue(w.g, w.To(x)) == MoveValue(AttributeValue(w.h, x), w.d)
  {
    hide Run;
    hide AllAccepted;
    RunSame(w, x, Space);
    var at := Run(w.h, x, Space);
    if at < |w.h| {
      assert w.g[at + w.d] == w.h[at];
      if w.h[at] != DQUOTE && w.h[at] != SQUOTE {
        RunSame(w, at, UnquotedByte);
      } else {
        RunSame(w, at + 1, Not(w.h[at]));
      }
    }
  }

  lemma AttributeSame(w: Window, s: nat)
    requires w.Valid() && w.lo <= s < w.hi
    requires w.Settles(TurnEnd(w.h, AttributeAt(w.h, s)))
    ensures AttributeAt(w.g, w.To(s)) == MoveTurn(AttributeAt(w.h, s), w.d)
  {
    hide Run;
    hide AllAccepted;
    hide AttributeValue;
    RunSame(w, s + 1, AttributeNameByte);
    var nameEnd := Run(w.h, s + 1, AttributeNameByte);
    RunSame(w, nameEnd, Space);
    var after := Run(w.h, nameEnd, Space);
    assert after < w.hi ==> w.g[after + w.d] == w.h[after];
    if Is(w.h, after, [EQUALS]) {
      ValueSame(w, after + 1);
    }
  }

  lemma TurnSame(w: Window, x: nat)
    requires w.Valid() && w.lo <= x <= w.hi
    requires w.Settles(TurnEnd(w.h, NextAttribute(w.h, x)))
    ensures NextAttribute(w.g, w.To(x)) == MoveTurn(NextAttribute(w.h, x), w.d)
  {
    hide Run;
    hide AllAccepted;
    hide AttributeAt;
    RunSame(w, x, SpaceOrSlash);
    var s := Run(w.h, x, SpaceOrSlash);
    if s < |w.h| {
      assert w.g[s + w.d] == w.h[s];
      if w.h[s] != GT {
        AttributeSame(w, s);
      }
    }
  }

  lemma ReadEndGrows(h: seq<byte>, x: nat)
    requires x <= |h|
    ensures x <= TurnEnd(h, NextAttribute(h, x)) <= ReadEnd(h, x)
    ensures NextAttribute(h, x).Reads? ==> ReadEnd(h, NextAttribute(h, x).next) == ReadEnd(h, x)
  {
    hide NextAttribute;
  }

  lemma ReadMoves(h: seq<byte>, g: seq<byte>, d: int, x: nat)
    requires x <= |h| && 0 <= x + d <= |g|
    requires NextAttribute(g, x + d) == MoveTurn(NextAttribute(h, x), d)
    requires var t := NextAttribute(h, x);
             t.Reads? ==> 0 <= t.next + d <= |g| && ReadAttributes(g, t.next + d) == MoveRead(ReadAttributes(h, t.next), d)
    ensures ReadAttributes(g, x + d) == MoveRead(ReadAttributes(h, x), d)
  {
    hide NextAttribute;
    hide MoveAttribute;
    var t := NextAttribute(h, x);
    if t.Reads? && ReadAttributes(h, t.next).Closed? {
      var rest := ReadAttributes(h, t.next).list;
      assert ([t.attribute] + rest)[1..] == rest;
    }
  }

  lemma {:induction false} ReadSame(w: Window, x: nat)
    requires w.Valid() && w.lo <= x <= w.hi
    requires w.Settles(ReadEnd(w.h, x))
    ensures ReadAttributes(w.g, w.To(x)) == MoveRead(ReadAttributes(w.h, x), w.d)
    decreases |w.h| - x
  {
    hide NextAttribute;
    hide ReadAttributes;
    hide MoveRead;
    hide ReadEnd;
    hide Within;
    ReadEndGrows(w.h, x);
    TurnSame(w, x);
    var t := NextAttribute(w.h, x);
    if t.Reads? {
      ReadSame(w, t.next);
    }
    ReadMoves(w.h, w.g, w.d, x);
  }

  lemma TagSame(w: Window, x: nat)
    requires w.Valid() && w.lo <= x <= w.hi
    requires w.Settles(TagEnd(w.h, x))
    ensures Tagged(w.g, w.To(x)) == MoveTag(Tagged(w.h, x), w.d)
    ensures TagEnd(w.g, w.To(x)) == w.To(TagEnd(w.h, x))
  {
    hide Run;
    hide AllAccepted;
    hide ReadAttributes;
    hide Within;
    RunSame(w, x, NameByte);
    ReadSame(w, Run(w.h, x, NameByte));
  }

  // ----- everything that is not a tag

  lemma EndTagSame(w: Window, x: nat)
    requires w.Valid() && w.lo <= x <= w.hi
    requires w.Settles(EndTag(w.h, x))
    ensures EndTag(w.g, w.To(x)) == w.To(EndTag(w.h, x))
  {
    hide Run;
    hide AllAccepted;
    hide TagEnd;
    hide Past;
    if x < |w.h| {
      assert w.g[x + w.d] == w.h[x];
      if w.h[x] == GT {
      } else if !IsAlpha(w.h[x]) {
        PastSame(w, x, GT);
      } else {
        TagSame(w, x);
      }
    }
  }

  lemma {:induction false} CommentSame(w: Window, start: nat, x: nat)
    requires w.Valid() && w.lo <= start <= x <= w.hi
    requires w.Settles(CommentFrom(w.h, start, x))
    ensures CommentFrom(w.g, w.To(start), w.To(x)) == w.To(CommentFrom(w.h, start, x))
    decreases |w.h| - x
  {
    hide Run;
    hide AllAccepted;
    hide ClosesComment;
    RunSame(w, x, Not(GT));
    var gt := Run(w.h, x, Not(GT));
    if gt < |w.h| {
      assert w.h[start..gt] == w.g[start + w.d..gt + w.d];
      if !ClosesComment(w.h[start..gt]) {
        CommentSame(w, start, gt + 1);
      }
    }
  }

  /** A `<` is no part of a name and does not end one. */
  lemma NamedStops(h: seq<byte>, x: nat, name: seq<byte>, stop: nat)
    requires forall i :: 0 <= i < |name| ==> IsAlpha(name[i])
    requires x <= stop <= x + |name| && stop < |h| && h[stop] == LT
    ensures !Named(h, x, name)
  {
    if x + |name| < |h| && stop < x + |name| {
      assert h[x..x + |name|][stop - x] == LT;
    }
  }

  predicate AllLetters(name: seq<byte>) {
    forall i :: 0 <= i < |name| ==> IsAlpha(name[i])
  }

  /** Looking ahead for a name gives the same answer if a `<` stops it inside the window. */
  lemma NamedSame(w: Window, x: nat, name: seq<byte>, stop: nat)
    requires w.Valid() && w.lo <= x <= w.hi && AllLetters(name)
    requires (x <= stop < w.hi && w.h[stop] == LT) || x + |name| < w.hi || w.Whole()
    ensures Named(w.g, w.To(x), name) <==> Named(w.h, x, name)
  {
    hide EndsName;
    if x + |name| < w.hi {
      assert w.h[x..x + |name|] == w.g[x + w.d..x + w.d + |name|];
      assert w.g[x + |name| + w.d] == w.h[x + |name|];
    } else if x <= stop < w.hi && w.h[stop] == LT {
      assert w.g[stop + w.d] == w.h[stop];
      NamedStops(w.h, x, name, stop);
      NamedStops(w.g, x + w.d, name, stop + w.d);
    }
  }

  lemma ClosesSame(w: Window, x: nat, name: seq<byte>, stop: nat)
    requires w.Valid() && w.lo <= x < w.hi && AllLetters(name)
    requires (x < stop < w.hi && w.h[stop] == LT) || x + 2 + |name| < w.hi || w.Whole()
    ensures ClosesElement(w.g, w.To(x), name) <==> ClosesElement(w.h, x, name)
  {
    hide Named;
    hide AllLetters;
    assert w.g[x + w.d] == w.h[x];
    if x + 1 < w.hi {
      assert w.g[x + 1 + w.d] == w.h[x + 1];
      if w.h[x + 1] == SLASH {
        NamedSame(w, x + 2, name, stop);
      }
    }
  }

  /** Where an end tag is looked for and found with its name inside the window. */
  predicate SettlesCloser(w: Window, closer: Option<nat>, name: seq<byte>) {
    w.Whole() || (closer.Some? && closer.value + 2 + |name| < w.hi)
  }

  function MoveCloser(closer: Option<nat>, d: int): Option<nat> {
    if closer.Some? then Some(Moved(closer.value, d)) else None
  }

  lemma {:induction false} RawCloserSame(w: Window, x: nat, name: seq<byte>)
    requires w.Valid() && w.lo <= x <= w.hi && AllLetters(name)
    requires SettlesCloser(w, RawCloser(w.h, x, name), name)
    ensures RawCloser(w.g, w.To(x), name) == MoveCloser(RawCloser(w.h, x, name), w.d)
    decreases |w.h| - x
  {
    hide Run;
    hide AllAccepted;
    hide Named;
    hide AllLetters;
    var open, closer := Run(w.h, x, Not(LT)), RawCloser(w.h, x, name);
    RunSame(w, x, Not(LT));
    if open < |w.h| {
      ClosesSame(w, open, name, if closer.Some? then closer.value else 0);
      if !ClosesElement(w.h, open, name) {
        RawCloserSame(w, open + 1, name);
      }
    }
  }

  /** The `<!--` that escapes a script. */
  lemma DashesSame(w: Window, x: nat, stop: nat)
    requires w.Valid() && w.lo <= x < w.hi
    requires (x < stop < w.hi && w.h[stop] == LT) || w.Whole()
    ensures StartsWith(w.g[w.To(x)..], [LT, BANG, DASH, DASH]) <==> StartsWith(w.h[x..], [LT, BANG, DASH, DASH])
  {
    var s, t := w.h[x..], w.g[x + w.d..];
    assert forall i :: 0 <= i < w.hi - x ==> t[i] == w.g[x + i + w.d] == w.h[x + i] == s[i];
    if x + 4 <= w.hi {
      assert s[..4] == t[..4];
    } else if x < stop < w.hi && w.h[stop] == LT {
      assert s[stop - x] == LT == t[stop - x];
      if |s| >= 4 {
        assert s[..4][stop - x] == LT;
      }
      if |t| >= 4 {
        assert t[..4][stop - x] == LT;
      }
    }
  }

  lemma OpensSame(w: Window, x: nat, s: Script, stop: nat)
    requires w.Valid() && w.lo <= x < w.hi && w.h[x] == LT
    requires (x < stop < w.hi && w.h[stop] == LT) || w.Whole()
    requires s.Opens(w.h, x).1 <= w.hi
    ensures s.Opens(w.g, w.To(x)) == (s.Opens(w.h, x).0, w.To(s.Opens(w.h, x).1))
  {
    hide Named;
    assert w.g[x + w.d] == w.h[x];
    match s
    case Data => DashesSame(w, x, stop);
    case Escaped(_) => NamedSame(w, x + 1, SCRIPT, stop);
    case Double(_) => ClosesSame(w, x, SCRIPT, stop);
  }

  lemma {:induction false} ScriptCloserSame(w: Window, x: nat, s: Script)
    requires w.Valid() && w.lo <= x <= w.hi
    requires SettlesCloser(w, ScriptCloser(w.h, x, s), SCRIPT)
    ensures ScriptCloser(w.g, w.To(x), s) == MoveCloser(ScriptCloser(w.h, x, s), w.d)
    decreases |w.h| - x
  {
    hide Named;
    hide Script.Opens;
    var closer := ScriptCloser(w.h, x, s);
    if x < |w.h| {
      assert w.g[x + w.d] == w.h[x];
      if w.h[x] != LT {
        ScriptCloserSame(w, x + 1, s.After(w.h[x]));
      } else {
        var stop := if closer.Some? then closer.value else 0;
        if s.Double? || !ClosesElement(w.h, x, SCRIPT) {
          var (next, to) := s.Opens(w.h, x);
          OpensSame(w, x, s, stop);
          ScriptCloserSame(w, to, next);
        }
        if !s.Double? {
          ClosesSame(w, x, SCRIPT, stop);
        }
      }
    }
  }

  /** An end tag ends after the name it was recognised by. */
  lemma CloserBeforeEnd(h: seq<byte>, at: nat, name: seq<byte>)
    requires AllLetters(name) && ClosesElement(h, at, name)
    ensures at + 2 + |name| < TagEnd(h, at + 2)
  {
    hide ReadAttributes;
    hide Within;
    forall i | at + 2 <= i < at + 2 + |name|
      ensures !EndsName(h[i])
    {
      assert h[at + 2..at + 2 + |name|][i - at - 2] == h[i];
    }
    assert Run(h, at + 2, NameByte) >= at + 2 + |name|;
  }

  lemma RawEndSame(w: Window, x: nat, name: seq<byte>)
    requires w.Valid() && w.lo <= x <= w.hi && AllLetters(name)
    requires w.Settles(RawEnd(w.h, x, name))
    ensures RawEnd(w.g, w.To(x), name) == w.To(RawEnd(w.h, x, name))
  {
    hide TagEnd;
    hide Named;
    hide RawCloser;
    hide AllLetters;
    var closer := RawCloser(w.h, x, name);
    if closer.Some? {
      CloserBeforeEnd(w.h, closer.value, name);
      TagSame(w, closer.value + 2);
    }
    RawCloserSame(w, x, name);
  }

  lemma ScriptEndSame(w: Window, x: nat)
    requires w.Valid() && w.lo <= x <= w.hi
    requires w.Settles(ScriptEnd(w.h, x))
    ensures ScriptEnd(w.g, w.To(x)) == w.To(ScriptEnd(w.h, x))
  {
    hide TagEnd;
    hide Named;
    hide ScriptCloser;
    var closer := ScriptCloser(w.h, x, Data);
    if closer.Some? {
      CloserBeforeEnd(w.h, closer.value, SCRIPT);
      TagSame(w, closer.value + 2);
    }
    ScriptCloserSame(w, x, Data);
  }

  lemma {:induction false} RawNameLetters(name: seq<byte>, from: nat)
    requires from <= |RAW|
    ensures RawName(name, from).Some? ==> AllLetters(RawName(name, from).value)
    decreases |RAW| - from
  {
    hide EqIgnoreCase;
    if from < |RAW| {
      assert AllLetters(RAW[from]);
      RawNameLetters(name, from + 1);
    }
  }

  lemma TextEndSame(w: Window, name: seq<byte>, x: nat)
    requires w.Valid() && w.lo <= x <= w.hi
    requires w.Settles(TextEnd(w.h, name, x))
    ensures TextEnd(w.g, name, w.To(x)) == w.To(TextEnd(w.h, name, x))
  {
    hide RawName;
    hide RawEnd;
    hide ScriptEnd;
    hide EqIgnoreCase;
    hide AllLetters;
    RawNameLetters(name, 0);
    var raw := RawName(name, 0);
    if raw.Some? {
      RawEndSame(w, x, raw.value);
    } else if EqIgnoreCase(name, SCRIPT) {
      ScriptEndSame(w, x);
    }
  }

  // ----- slots

  /** The attributes have the same names, so each field is found at the same place in the list. */
  lemma FirstNamedSame(h: seq<byte>, g: seq<byte>, list: seq<Attribute>, other: seq<Attribute>, field: Field)
    requires AttributesIn(h, list) && AttributesIn(g, other) && |list| == |other|
    requires forall i :: 0 <= i < |list| ==> Slice(g, other[i].name) == Slice(h, list[i].name)
    ensures FirstNamed(g, other, field) == FirstNamed(h, list, field)
  {
    hide EqIgnoreCase;
  }

  lemma SliceSame(w: Window, s: Span)
    requires w.Valid() && w.lo <= s.lo <= s.hi <= w.hi
    ensures InBounds(w.g, MoveSpan(s, w.d)) && Slice(w.g, MoveSpan(s, w.d)) == Slice(w.h, s)
  {}

  predicate WindowHolds(w: Window, list: seq<Attribute>) {
    forall i :: 0 <= i < |list| ==>
                  && w.lo <= list[i].name.lo <= list[i].name.hi <= w.hi
                  && w.lo <= list[i].value.lo <= list[i].value.hi <= w.hi
  }

  function MoveSlot(s: Option<Span>, d: int): Option<Span> {
    if s.Some? then Some(MoveSpan(s.value, d)) else None
  }

  lemma FieldSame(w: Window, list: seq<Attribute>, field: Field)
    requires w.Valid() && WindowHolds(w, list)
    ensures AttributesIn(w.h, list) && AttributesIn(w.g, MoveAttributes(list, w.d))
    ensures FieldOf(w.g, MoveAttributes(list, w.d), field) == MoveSlot(FieldOf(w.h, list, field), w.d)
    ensures var f := FieldOf(w.h, list, field);
            f.Some? ==> w.lo <= f.value.lo <= f.value.hi <= w.hi
  {
    hide FirstNamed;
    hide EqIgnoreCase;
    forall i | 0 <= i < |list|
      ensures var a, b := list[i], MoveAttributes(list, w.d)[i];
              && InBounds(w.g, b.name) && InBounds(w.g, b.value)
              && Slice(w.g, b.name) == Slice(w.h, a.name)
    {
      SliceSame(w, list[i].name);
      SliceSame(w, list[i].value);
    }
    FirstNamedSame(w.h, w.g, list, MoveAttributes(list, w.d), field);
  }

  lemma MetaSlotSame(w: Window, list: seq<Attribute>)
    requires w.Valid() && WindowHolds(w, list)
    ensures AttributesIn(w.h, list) && AttributesIn(w.g, MoveAttributes(list, w.d))
    ensures MetaSlot(w.g, MoveAttributes(list, w.d)) == MoveSlot(MetaSlot(w.h, list), w.d)
  {
    hide EqIgnoreCase;
    hide FieldOf;
    hide Refresh;
    FieldSame(w, list, HttpEquiv);
    FieldSame(w, list, Content);
    var equiv, content := FieldOf(w.h, list, HttpEquiv), FieldOf(w.h, list, Content);
    if equiv.Some? {
      SliceSame(w, equiv.value);
      if content.Some? {
        SliceSame(w, content.value);
      }
    }
  }

  lemma UrlSlotSame(w: Window, name: Span, list: seq<Attribute>)
    requires w.Valid() && WindowHolds(w, list)
    requires w.lo <= name.lo <= name.hi <= w.hi
    ensures AttributesIn(w.h, list) && AttributesIn(w.g, MoveAttributes(list, w.d))
    ensures InBounds(w.g, MoveSpan(name, w.d))
    ensures UrlSlot(w.g, MoveSpan(name, w.d), MoveAttributes(list, w.d)) == MoveSlot(UrlSlot(w.h, name, list), w.d)
  {
    hide EqIgnoreCase;
    hide FieldOf;
    hide MetaSlot;
    SliceSame(w, name);
    FieldSame(w, list, Href);
    FieldSame(w, list, Action);
    MetaSlotSame(w, list);
  }

  lemma StartTagSame(w: Window, x: nat)
    requires w.Valid() && w.lo <= x <= w.hi
    requires w.Settles(StartTagAt(w.h, x).end)
    ensures StartTagAt(w.g, w.To(x)) == Piece(MoveSlot(StartTagAt(w.h, x).slot, w.d), w.To(StartTagAt(w.h, x).end))
  {
    hide UrlSlot;
    hide TextEnd;
    hide Tagged;
    var t := Tagged(w.h, x);
    TagSame(w, x);
    if t.Tag? {
      UrlSlotSame(w, t.name, t.attributes);
      SliceSame(w, t.name);
      TextEndSame(w, Slice(w.h, t.name), t.end);
    }
  }

  /** One piece of markup, tags and slots included, depends only on its own bytes. */
  lemma MarkupSame(w: Window, x: nat)
    requires w.Valid() && w.lo <= x <= w.hi
    requires w.Settles(MarkupAt(w.h, x).end)
    ensures MarkupAt(w.g, w.To(x)) == Piece(MoveSlot(MarkupAt(w.h, x).slot, w.d), w.To(MarkupAt(w.h, x).end))
  {
    hide StartTagAt;
    hide CommentFrom;
    hide Past;
    hide EndTag;
    if x < |w.h| {
      assert w.g[x + w.d] == w.h[x];
      if w.h[x] == BANG {
        BangSame(w, x);
      } else if w.h[x] == QUESTION {
        PastSame(w, x, GT);
      } else if w.h[x] == SLASH {
        EndTagSame(w, x + 1);
      } else if IsAlpha(w.h[x]) {
        StartTagSame(w, x);
      }
    }
  }

  lemma BangEnd(h: seq<byte>, x: nat)
    requires x < |h| && h[x] == BANG
    ensures MarkupAt(h, x).end == |h| || MarkupAt(h, x).end >= x + 2
    ensures StartsWith(h[x + 1..], [DASH, DASH]) ==> MarkupAt(h, x).end >= x + 3
  {
    hide CommentFrom;
  }

  lemma BangSame(w: Window, x: nat)
    requires w.Valid() && w.lo <= x < w.hi && w.h[x] == BANG
    requires w.Settles(MarkupAt(w.h, x).end)
    ensures MarkupAt(w.g, w.To(x)) == Piece(None, w.To(MarkupAt(w.h, x).end))
  {
    hide CommentFrom;
    hide Past;
    BangEnd(w.h, x);
    var dashes := [DASH, DASH];
    var s, t := w.h[x + 1..], w.g[x + 1 + w.d..];
    assert w.g[x + w.d] == w.h[x];
    if x + 3 <= w.hi {
      assert w.g[x + 1 + w.d] == w.h[x + 1] && w.g[x + 2 + w.d] == w.h[x + 2];
      assert s[..2] == t[..2];
      if StartsWith(s, dashes) {
        CommentSame(w, x + 3, x + 3);
      } else {
        PastSame(w, x, GT);
      }
    } else {
      PastSame(w, x, GT);
    }
  }

  lemma SlotEditsSame(w: Window, slot: Option<Span>, portal: Portal)
    requires w.Valid()
    requires slot.Some? ==> w.lo <= slot.value.lo <= slot.value.hi <= w.hi
    ensures slot.Some? ==> InBounds(w.g, MoveSlot(slot, w.d).value)
    ensures SlotEdits(w.h, slot, portal) == [] ==> SlotEdits(w.g, MoveSlot(slot, w.d), portal) == []
    ensures w.d == 0 ==> SlotEdits(w.g, slot, portal) == SlotEdits(w.h, slot, portal)
  {
    hide RewriteOf;
    hide Trimmed;
    if slot.Some? {
      var s := slot.value;
      SliceSame(w, s);
      var t := Trimmed(Slice(w.h, s));
      SliceSame(w, Span(s.lo + t.lo, s.lo + t.hi));
    }
  }
}
