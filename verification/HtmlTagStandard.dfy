/**
 Tags against the HTML Standard, sections 13.2.5.8 and 13.2.5.32 to 13.2.5.40: the scanner that runs over
 whole names and values reads the same attributes, and ends where the byte-at-a-time tokenizer does.
 Attribute names are compared as written; the standard's lower-casing and character references are not part of it.
 */
module HtmlTagStandard {
  import opened Bytes
  import opened HtmlScan

  /** An attribute's name and value, as bytes. */
  datatype Pair = Pair(name: seq<byte>, value: seq<byte>)

  /** The states of a tag, with the name and value collected so far. */
  datatype TagState = TagName | BeforeName | AfterQuoted | SelfClosing
    | InName(n: seq<byte>) | AfterName(n: seq<byte>) | BeforeValue(n: seq<byte>)
    | Quoted(n: seq<byte>, v: seq<byte>, quote: byte) | Unquoted(n: seq<byte>, v: seq<byte>)

  /** One byte either ends the tag or leads to a state; either may complete attributes. */
  datatype TagStep = Emit(done: seq<Pair>) | Consume(next: TagState, done: seq<Pair>)

  /** Before attribute name, and the two states that reconsume in it. */
  function NameByteStep(b: byte): TagStep {
    if IsSpace(b) then Consume(BeforeName, [])
    else if b == SLASH then Consume(SelfClosing, [])
    else if b == GT then Emit([])
    else Consume(InName([b]), [])
  }

  function TagByte(s: TagState, b: byte): TagStep {
    match s
    case TagName =>
      if IsSpace(b) then Consume(BeforeName, [])
      else if b == SLASH then Consume(SelfClosing, [])
      else if b == GT then Emit([])
      else Consume(TagName, [])
    case BeforeName => NameByteStep(b)
    case AfterQuoted => NameByteStep(b)
    case SelfClosing => if b == GT then Emit([]) else NameByteStep(b)
    case InName(n) =>
      if IsSpace(b) then Consume(AfterName(n), [])
      else if b == SLASH then Consume(SelfClosing, [Pair(n, [])])
      else if b == GT then Emit([Pair(n, [])])
      else if b == EQUALS then Consume(BeforeValue(n), [])
      else Consume(InName(n + [b]), [])
    case AfterName(n) =>
      if IsSpace(b) then Consume(AfterName(n), [])
      else if b == SLASH then Consume(SelfClosing, [Pair(n, [])])
      else if b == EQUALS then Consume(BeforeValue(n), [])
      else if b == GT then Emit([Pair(n, [])])
      else Consume(InName([b]), [Pair(n, [])])
    case BeforeValue(n) =>
      if IsSpace(b) then Consume(BeforeValue(n), [])
      else if b == DQUOTE || b == SQUOTE then Consume(Quoted(n, [], b), [])
      else if b == GT then Emit([Pair(n, [])])
      else Consume(Unquoted(n, [b]), [])
    case Quoted(n, v, q) => if b == q then Consume(AfterQuoted, [Pair(n, v)]) else Consume(Quoted(n, v + [b], q), [])
    case Unquoted(n, v) =>
      if IsSpace(b) then Consume(BeforeName, [Pair(n, v)])
      else if b == GT then Emit([Pair(n, v)])
      else Consume(Unquoted(n, v + [b]), [])
  }

  /** A tag with its attributes, unless the input ends inside it. */
  datatype Outcome = Ended(pairs: seq<Pair>, end: nat) | Eof

  function Prefixed(done: seq<Pair>, o: Outcome): Outcome {
    if o.Eof? then Eof else Ended(done + o.pairs, o.end)
  }

  function Machine(h: seq<byte>, at: nat, s: TagState): Outcome
    requires at <= |h|
    decreases |h| - at
  {
    if at == |h| then Eof
    else match TagByte(s, h[at])
         case Emit(done) => Ended(done, at + 1)
         case Consume(next, done) => Prefixed(done, Machine(h, at + 1, next))
  }

  lemma PrefixedNothing(o: Outcome)
    ensures Prefixed([], o) == o
  {
    if o.Ended? {
      assert [] + o.pairs == o.pairs;
    }
  }

  lemma Reads(h: seq<byte>, at: nat, s: TagState, next: TagState)
    requires at < |h| && TagByte(s, h[at]) == Consume(next, [])
    ensures Machine(h, at, s) == Machine(h, at + 1, next)
  {
    hide TagByte;
    PrefixedNothing(Machine(h, at + 1, next));
  }

  /** The three states between attributes take every byte alike. */
  lemma BetweenAlike(h: seq<byte>, at: nat, s: TagState)
    requires at <= |h| && (s.AfterQuoted? || s.SelfClosing?)
    ensures Machine(h, at, s) == Machine(h, at, BeforeName)
  {
    hide Prefixed;
  }

  // ----- runs

  lemma {:induction false} BetweenRun(h: seq<byte>, at: nat)
    requires at <= |h|
    ensures Machine(h, at, BeforeName) == Machine(h, Run(h, at, SpaceOrSlash), BeforeName)
    decreases |h| - at
  {
    hide Machine;
    hide AllAccepted;
    if at < |h| && SpaceOrSlash.Has(h[at]) {
      var next := if IsSpace(h[at]) then BeforeName else SelfClosing;
      Reads(h, at, BeforeName, next);
      if next.SelfClosing? {
        BetweenAlike(h, at + 1, SelfClosing);
      }
      BetweenRun(h, at + 1);
    }
  }

  /** The states that stay in themselves over a run of space. */
  predicate SkipsSpace(s: TagState) {
    s.AfterName? || s.BeforeValue?
  }

  lemma {:induction false} SpaceRun(h: seq<byte>, at: nat, s: TagState)
    requires at <= |h| && SkipsSpace(s)
    ensures Machine(h, at, s) == Machine(h, Run(h, at, Space), s)
    decreases |h| - at
  {
    hide Machine;
    hide AllAccepted;
    if at < |h| && Space.Has(h[at]) {
      Reads(h, at, s, s);
      SpaceRun(h, at + 1, s);
    }
  }

  lemma {:induction false} TagNameRun(h: seq<byte>, at: nat)
    requires at <= |h|
    ensures Machine(h, at, TagName) == Machine(h, Run(h, at, NameByte), TagName)
    decreases |h| - at
  {
    hide Machine;
    hide AllAccepted;
    if at < |h| && NameByte.Has(h[at]) {
      Reads(h, at, TagName, TagName);
      TagNameRun(h, at + 1);
    }
  }

  lemma {:induction false} NameRun(h: seq<byte>, lo: nat, at: nat)
    requires lo <= at <= |h|
    ensures Machine(h, at, InName(h[lo..at]))
         == Machine(h, Run(h, at, AttributeNameByte), InName(h[lo..Run(h, at, AttributeNameByte)]))
    decreases |h| - at
  {
    hide Machine;
    hide AllAccepted;
    if at < |h| && AttributeNameByte.Has(h[at]) {
      assert h[lo..at] + [h[at]] == h[lo..at + 1];
      Reads(h, at, InName(h[lo..at]), InName(h[lo..at + 1]));
      NameRun(h, lo, at + 1);
    }
  }

  lemma {:induction false} UnquotedRun(h: seq<byte>, n: seq<byte>, lo: nat, at: nat)
    requires lo <= at <= |h|
    ensures Machine(h, at, Unquoted(n, h[lo..at]))
         == Machine(h, Run(h, at, UnquotedByte), Unquoted(n, h[lo..Run(h, at, UnquotedByte)]))
    decreases |h| - at
  {
    hide Machine;
    hide AllAccepted;
    if at < |h| && UnquotedByte.Has(h[at]) {
      assert h[lo..at] + [h[at]] == h[lo..at + 1];
      Reads(h, at, Unquoted(n, h[lo..at]), Unquoted(n, h[lo..at + 1]));
      UnquotedRun(h, n, lo, at + 1);
    }
  }

  lemma {:induction false} QuotedRun(h: seq<byte>, n: seq<byte>, lo: nat, at: nat, q: byte)
    requires lo <= at <= |h|
    ensures Machine(h, at, Quoted(n, h[lo..at], q))
         == Machine(h, Run(h, at, Not(q)), Quoted(n, h[lo..Run(h, at, Not(q))], q))
    decreases |h| - at
  {
    hide Machine;
    hide AllAccepted;
    if at < |h| && Not(q).Has(h[at]) {
      assert h[lo..at] + [h[at]] == h[lo..at + 1];
      Reads(h, at, Quoted(n, h[lo..at], q), Quoted(n, h[lo..at + 1], q));
      QuotedRun(h, n, lo, at + 1, q);
    }
  }

  // ----- values

  /** What follows a value read from `n=`. */
  function AfterValue(h: seq<byte>, n: seq<byte>, v: Value): Outcome
    requires v.Value? ==> v.span.lo <= v.span.hi <= v.next <= |h|
  {
    if v.OpenValue? then Eof else Prefixed([Pair(n, Slice(h, v.span))], Machine(h, v.next, BeforeName))
  }

  /** The end of an unquoted value, or of a name without one, leaves the byte that ended it to be read. */
  lemma UnquotedEnds(h: seq<byte>, n: seq<byte>, v: seq<byte>, at: nat)
    requires at <= |h| && (at < |h| ==> IsSpace(h[at]) || h[at] == GT)
    ensures Machine(h, at, Unquoted(n, v)) == Prefixed([Pair(n, v)], Machine(h, at, BeforeName))
  {
    if at < |h| && IsSpace(h[at]) {
      Reads(h, at, BeforeName, BeforeName);
    }
  }

  lemma EmptyValue(h: seq<byte>, n: seq<byte>, at: nat)
    requires at < |h| && h[at] == GT
    ensures Machine(h, at, BeforeValue(n)) == Prefixed([Pair(n, [])], Machine(h, at, BeforeName))
  {}

  lemma UnquotedAgrees(h: seq<byte>, n: seq<byte>, at: nat)
    requires at < |h| && !IsSpace(h[at]) && h[at] != DQUOTE && h[at] != SQUOTE
    ensures var end := Run(h, at, UnquotedByte);
            Machine(h, at, BeforeValue(n)) == Prefixed([Pair(n, h[at..end])], Machine(h, end, BeforeName))
  {
    hide Machine;
    hide Prefixed;
    hide AllAccepted;
    var end := Run(h, at, UnquotedByte);
    if h[at] == GT {
      assert end == at && h[at..at] == [];
      EmptyValue(h, n, at);
    } else {
      Reads(h, at, BeforeValue(n), Unquoted(n, [h[at]]));
      assert h[at..at + 1] == [h[at]];
      UnquotedRun(h, n, at, at + 1);
      UnquotedEnds(h, n, h[at..end], end);
    }
  }

  lemma QuotedAgrees(h: seq<byte>, n: seq<byte>, at: nat)
    requires at < |h| && (h[at] == DQUOTE || h[at] == SQUOTE)
    ensures var close := Run(h, at + 1, Not(h[at]));
            Machine(h, at, BeforeValue(n))
            == if close == |h| then Eof else Prefixed([Pair(n, h[at + 1..close])], Machine(h, close + 1, BeforeName))
  {
    hide Machine;
    hide AllAccepted;
    hide Run;
    hide Prefixed;
    hide TagByte;
    hide Accept.Has;
    var q := h[at];
    var close := Run(h, at + 1, Not(q));
    QuoteOpens(h, n, at);
    QuotedRun(h, n, at + 1, at + 1, q);
    StopsAtQuote(h, at + 1, q);
    QuotedEnds(h, n, h[at + 1..close], q, close);
  }

  lemma QuoteOpens(h: seq<byte>, n: seq<byte>, at: nat)
    requires at < |h| && (h[at] == DQUOTE || h[at] == SQUOTE)
    ensures Machine(h, at, BeforeValue(n)) == Machine(h, at + 1, Quoted(n, h[at + 1..at + 1], h[at]))
  {
    hide Machine;
    assert h[at + 1..at + 1] == [];
    Reads(h, at, BeforeValue(n), Quoted(n, [], h[at]));
  }

  lemma StopsAtQuote(h: seq<byte>, at: nat, q: byte)
    requires at <= |h|
    ensures Run(h, at, Not(q)) < |h| ==> h[Run(h, at, Not(q))] == q
  {
    hide Run;
  }

  lemma QuotedEnds(h: seq<byte>, n: seq<byte>, v: seq<byte>, q: byte, at: nat)
    requires at <= |h| && (at < |h| ==> h[at] == q)
    ensures Machine(h, at, Quoted(n, v, q))
         == if at == |h| then Eof else Prefixed([Pair(n, v)], Machine(h, at + 1, BeforeName))
  {
    if at < |h| {
      BetweenAlike(h, at + 1, AfterQuoted);
    }
  }

  lemma ValueAgrees(h: seq<byte>, n: seq<byte>, at: nat)
    requires at <= |h|
    ensures Machine(h, at, BeforeValue(n)) == AfterValue(h, n, AttributeValue(h, at))
  {
    hide Machine;
    hide Prefixed;
    hide AllAccepted;
    hide Run;
    var s := Run(h, at, Space);
    SpaceRun(h, at, BeforeValue(n));
    if s == |h| {
      EofAt(h, BeforeValue(n));
    } else if h[s] != DQUOTE && h[s] != SQUOTE {
      UnquotedAgrees(h, n, s);
    } else {
      QuotedAgrees(h, n, s);
    }
  }

  lemma EofAt(h: seq<byte>, s: TagState)
    ensures Machine(h, |h|, s) == Eof
  {}

  // ----- attributes

  /** What follows one turn of the scanner. */
  function AfterTurn(h: seq<byte>, t: Turn): Outcome
    requires t.Reads? ==> InBounds(h, t.attribute.name) && InBounds(h, t.attribute.value) && t.next <= |h|
  {
    match t
    case Starves => Eof
    case Closes(end) => Ended([], end)
    case Reads(a, next) => Prefixed([Pair(Slice(h, a.name), Slice(h, a.value))], Machine(h, next, BeforeName))
  }

  /** A name that ends at `at` without `=`. */
  lemma BareName(h: seq<byte>, n: seq<byte>, at: nat)
    requires at <= |h| && !Is(h, at, [EQUALS]) && (at < |h| ==> !IsSpace(h[at]))
    ensures Machine(h, at, AfterName(n)) == Prefixed([Pair(n, [])], Machine(h, at, BeforeName))
  {
    if at < |h| {
      if h[at] == SLASH {
        Reads(h, at, BeforeName, SelfClosing);
      } else if h[at] != GT {
        Reads(h, at, BeforeName, InName([h[at]]));
      }
    }
  }

  /** Where a name ends, being in it or after it makes no difference unless another name starts. */
  lemma NameEnds(h: seq<byte>, n: seq<byte>, at: nat)
    requires at <= |h| && (at < |h| ==> !AttributeNameByte.Has(h[at]))
    ensures Machine(h, at, InName(n)) == Machine(h, at, AfterName(n))
  {
    if at < |h| && IsSpace(h[at]) {
      Reads(h, at, InName(n), AfterName(n));
      Reads(h, at, AfterName(n), AfterName(n));
    }
  }

  /** A name with `=` and a value. */
  lemma ValuedAgrees(h: seq<byte>, s: nat, nameEnd: nat, after: nat)
    requires s < nameEnd <= after && Is(h, after, [EQUALS])
    ensures var v := AttributeValue(h, after + 1);
            var t := if v.OpenValue? then Starves else Turn.Reads(Attribute(Span(s, nameEnd), v.span), v.next);
            Machine(h, after, AfterName(h[s..nameEnd])) == AfterTurn(h, t)
  {
    hide Machine;
    hide Prefixed;
    hide AttributeValue;
    EqualsRead(h, h[s..nameEnd], after);
    ValueAgrees(h, h[s..nameEnd], after + 1);
  }

  /** A name without a value. */
  lemma BareAgrees(h: seq<byte>, s: nat, nameEnd: nat, after: nat)
    requires s < nameEnd <= after <= |h| && !Is(h, after, [EQUALS]) && (after < |h| ==> !IsSpace(h[after]))
    ensures Machine(h, after, AfterName(h[s..nameEnd]))
         == AfterTurn(h, Turn.Reads(Attribute(Span(s, nameEnd), Span(after, after)), after))
  {
    hide Machine;
    hide Prefixed;
    BareName(h, h[s..nameEnd], after);
    assert h[after..after] == [];
  }

  lemma AttributeAgrees(h: seq<byte>, s: nat)
    requires s < |h|
    ensures Machine(h, s + 1, InName([h[s]])) == AfterTurn(h, AttributeAt(h, s))
  {
    hide Machine;
    hide Prefixed;
    hide AllAccepted;
    hide Run;
    hide AttributeValue;
    hide AfterTurn;
    hide Is;
    hide Accept.Has;
    var nameEnd := Run(h, s + 1, AttributeNameByte);
    var after := Run(h, nameEnd, Space);
    NameAgrees(h, s);
    if Is(h, after, [EQUALS]) {
      ValuedAgrees(h, s, nameEnd, after);
    } else {
      NotSpace(h, nameEnd);
      BareAgrees(h, s, nameEnd, after);
    }
  }

  lemma EqualsRead(h: seq<byte>, n: seq<byte>, at: nat)
    requires Is(h, at, [EQUALS])
    ensures Machine(h, at, AfterName(n)) == Machine(h, at + 1, BeforeValue(n))
  {
    hide Machine;
    Reads(h, at, AfterName(n), BeforeValue(n));
  }

  lemma NotSpace(h: seq<byte>, at: nat)
    requires at <= |h|
    ensures Run(h, at, Space) < |h| ==> !IsSpace(h[Run(h, at, Space)])
  {
    hide Run;
  }

  /** From the first byte of a name to the end of the space after it. */
  lemma NameAgrees(h: seq<byte>, s: nat)
    requires s < |h|
    ensures var nameEnd := Run(h, s + 1, AttributeNameByte);
            Machine(h, s + 1, InName([h[s]])) == Machine(h, Run(h, nameEnd, Space), AfterName(h[s..nameEnd]))
  {
    hide Machine;
    hide AllAccepted;
    hide Run;
    hide Accept.Has;
    var nameEnd := Run(h, s + 1, AttributeNameByte);
    assert h[s..s + 1] == [h[s]];
    NameRun(h, s, s + 1);
    NameEnds(h, h[s..nameEnd], nameEnd);
    SpaceRun(h, nameEnd, AfterName(h[s..nameEnd]));
  }

  lemma TurnAgrees(h: seq<byte>, at: nat)
    requires at <= |h|
    ensures Machine(h, at, BeforeName) == AfterTurn(h, NextAttribute(h, at))
  {
    hide Machine;
    hide Prefixed;
    hide AllAccepted;
    hide Run;
    hide AttributeAt;
    var s := Run(h, at, SpaceOrSlash);
    BetweenRun(h, at);
    if s == |h| {
      EofAt(h, BeforeName);
    } else if h[s] == GT {
      Closing(h, s);
    } else {
      Reads(h, s, BeforeName, InName([h[s]]));
      AttributeAgrees(h, s);
    }
  }

  lemma Closing(h: seq<byte>, at: nat)
    requires at < |h| && h[at] == GT
    ensures Machine(h, at, BeforeName) == Ended([], at + 1)
  {}

  function Pairs(h: seq<byte>, list: seq<Attribute>): seq<Pair>
    requires AttributesIn(h, list)
  {
    if list == [] then [] else [Pair(Slice(h, list[0].name), Slice(h, list[0].value))] + Pairs(h, list[1..])
  }

  lemma WithinBounds(h: seq<byte>, list: seq<Attribute>, lo: nat, hi: nat)
    requires Within(list, lo, hi) && hi <= |h|
    ensures AttributesIn(h, list)
  {}

  /** The attributes that the scanner reads are those of the standard, and both end at the same place. */
  lemma {:induction false} AttributesAgree(h: seq<byte>, at: nat)
    requires at <= |h|
    ensures ReadAttributes(h, at).Open? ==> Machine(h, at, BeforeName) == Eof
    ensures ReadAttributes(h, at).Closed? ==>
              && AttributesIn(h, ReadAttributes(h, at).list)
              && Machine(h, at, BeforeName) == Ended(Pairs(h, ReadAttributes(h, at).list), ReadAttributes(h, at).end)
    decreases |h| - at
  {
    hide Machine;
    hide NextAttribute;
    hide Within;
    TurnAgrees(h, at);
    var r := ReadAttributes(h, at);
    if r.Closed? {
      WithinBounds(h, r.list, at, r.end);
    }
    match NextAttribute(h, at) {
      case Starves =>
      case Closes(_) =>
      case Reads(a, next) =>
        AttributesAgree(h, next);
        if r.Closed? {
          assert r.list[1..] == ReadAttributes(h, next).list;
        }
    }
  }

  /** A tag name, then whatever stands after it. */
  lemma NameThenRest(h: seq<byte>, at: nat)
    requires at <= |h| && (at < |h| ==> EndsName(h[at]))
    ensures Machine(h, at, TagName) == Machine(h, at, BeforeName)
  {
    if at < |h| && IsSpace(h[at]) {
      Reads(h, at, TagName, BeforeName);
      Reads(h, at, BeforeName, BeforeName);
    } else if at < |h| && h[at] == SLASH {
      Reads(h, at, TagName, SelfClosing);
      Reads(h, at, BeforeName, SelfClosing);
    }
  }

  /** `tag` on every document and from every tag name: the standard's attributes, the standard's end. */
  lemma TagIsStandard(h: seq<byte>, start: nat)
    requires start <= |h|
    ensures var t := Tagged(h, start);
            && (t.Unterminated? ==> Machine(h, start, TagName) == Eof)
            && (t.Tag? ==>
                  && AttributesIn(h, t.attributes)
                  && Machine(h, start, TagName) == Ended(Pairs(h, t.attributes), t.end))
  {
    hide Machine;
    hide ReadAttributes;
    hide Within;
    hide AllAccepted;
    hide Run;
    var nameEnd := Run(h, start, NameByte);
    TagNameRun(h, start);
    NameThenRest(h, nameEnd);
    AttributesAgree(h, nameEnd);
  }
}
