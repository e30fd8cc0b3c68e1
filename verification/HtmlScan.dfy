/**
 The forward-only HTML scanner of the portal (`gateway_links.rs`): every scanner takes the whole
 document and a position and answers with a later position. The functions say what each scanner
 finds; the methods are the loops that find it.
 */
module HtmlScan {
  import opened Bytes

  const A: seq<byte> := [97]
  const AREA: seq<byte> := [97, 114, 101, 97]
  const FORM: seq<byte> := [102, 111, 114, 109]
  const META: seq<byte> := [109, 101, 116, 97]
  const REFRESH: seq<byte> := [114, 101, 102, 114, 101, 115, 104]
  const SCRIPT: seq<byte> := [115, 99, 114, 105, 112, 116]
  const PLAINTEXT: seq<byte> := [112, 108, 97, 105, 110, 116, 101, 120, 116]

  // title, textarea, style, xmp, iframe, noembed, noframes
  const RAW: seq<seq<byte>> := [
    [116, 105, 116, 108, 101],
    [116, 101, 120, 116, 97, 114, 101, 97],
    [115, 116, 121, 108, 101],
    [120, 109, 112],
    [105, 102, 114, 97, 109, 101],
    [110, 111, 101, 109, 98, 101, 100],
    [110, 111, 102, 114, 97, 109, 101, 115]
  ]

  predicate IsSpace(b: byte) {
    b == TAB || b == LF || b == FF || b == CR || b == SPACE
  }

  predicate EndsName(b: byte) {
    IsSpace(b) || b == SLASH || b == GT
  }

  /** The byte classes that `run` is called with. */
  datatype Accept =
    | Not(b: byte)
    | NameByte
    | AttributeNameByte
    | SpaceOrSlash
    | Space
    | UnquotedByte
    | Digit
    | DigitOrDot
    | HostByte
  {
    predicate Has(c: byte) {
      match this
      case Not(b) => c != b
      case NameByte => !EndsName(c)
      case AttributeNameByte => !EndsName(c) && c != EQUALS
      case SpaceOrSlash => IsSpace(c) || c == SLASH
      case Space => IsSpace(c)
      case UnquotedByte => !IsSpace(c) && c != GT
      case Digit => IsDigit(c)
      case DigitOrDot => IsDigit(c) || c == DOT
      case HostByte => c != SLASH && c != QUESTION && c != HASH
    }
  }

  predicate AllAccepted(h: seq<byte>, from: nat, to: nat, accept: Accept) {
    forall i :: from <= i < to ==> i < |h| && accept.Has(h[i])
  }

  /** The first position at or after `at` whose byte is not accepted. */
  function Run(h: seq<byte>, at: nat, accept: Accept): (r: nat)
    ensures at <= r
    ensures at <= |h| ==> r <= |h|
    ensures |h| <= at ==> r == at
    ensures AllAccepted(h, at, r, accept)
    ensures r < |h| ==> !accept.Has(h[r])
    decreases |h| - at
  {
    if at < |h| && accept.Has(h[at]) then Run(h, at + 1, accept) else at
  }

  /** Those facts determine the position. */
  lemma RunIs(h: seq<byte>, at: nat, accept: Accept, r: nat)
    requires at <= r <= |h|
    requires forall i :: at <= i < r ==> accept.Has(h[i])
    requires r < |h| ==> !accept.Has(h[r])
    ensures Run(h, at, accept) == r
  {}

  method FindRun(h: seq<byte>, from: nat, accept: Accept) returns (at: nat)
    ensures at == Run(h, from, accept)
  {
    at := from;
    while at < |h| && accept.Has(h[at])
      invariant from <= at
      invariant Run(h, at, accept) == Run(h, from, accept)
    {
      at := at + 1;
    }
  }

  predicate Is(h: seq<byte>, at: nat, wanted: seq<byte>) {
    at < |h| && h[at] in wanted
  }

  /** One past the next `b`, or the end of the document. */
  function Past(h: seq<byte>, from: nat, b: byte): (r: nat)
    requires from <= |h|
    ensures from <= r <= |h|
  {
    var x := Run(h, from, Not(b));
    if x < |h| then x + 1 else |h|
  }

  // ----- tags

  datatype Span = Span(lo: nat, hi: nat)

  predicate InBounds(h: seq<byte>, s: Span) {
    s.lo <= s.hi <= |h|
  }

  function Slice(h: seq<byte>, s: Span): seq<byte>
    requires InBounds(h, s)
  {
    h[s.lo..s.hi]
  }

  datatype Value = Value(span: Span, next: nat) | OpenValue

  function AttributeValue(h: seq<byte>, from: nat): (v: Value)
    requires from <= |h|
    ensures v.Value? ==> from <= v.span.lo <= v.span.hi <= v.next <= |h|
  {
    var at := Run(h, from, Space);
    if at >= |h| then OpenValue
    else if h[at] != DQUOTE && h[at] != SQUOTE then
      var end := Run(h, at, UnquotedByte);
      Value(Span(at, end), end)
    else
      var close := Run(h, at + 1, Not(h[at]));
      if close == |h| then OpenValue else Value(Span(at + 1, close), close + 1)
  }

  datatype Attribute = Attribute(name: Span, value: Span)

  /** One turn of the attribute loop: the tag closes, one more attribute is read, or input ends. */
  datatype Turn = Closes(end: nat) | Reads(attribute: Attribute, next: nat) | Starves

  /** The attribute whose name starts at `s`. */
  function AttributeAt(h: seq<byte>, s: nat): (t: Turn)
    requires s < |h|
    ensures !t.Closes?
    ensures t.Reads? ==>
              && s == t.attribute.name.lo < t.attribute.name.hi
              && t.attribute.name.hi <= t.attribute.value.lo <= t.attribute.value.hi <= t.next <= |h|
  {
    var nameEnd := Run(h, s + 1, AttributeNameByte);
    var after := Run(h, nameEnd, Space);
    if Is(h, after, [EQUALS]) then
      match AttributeValue(h, after + 1)
      case OpenValue => Starves
      case Value(span, next) => Reads(Attribute(Span(s, nameEnd), span), next)
    else
      Reads(Attribute(Span(s, nameEnd), Span(after, after)), after)
  }

  function NextAttribute(h: seq<byte>, at: nat): (t: Turn)
    requires at <= |h|
    ensures t.Closes? ==> at < t.end <= |h| && h[t.end - 1] == GT
    ensures t.Reads? ==>
              && at <= t.attribute.name.lo < t.attribute.name.hi
              && t.attribute.name.hi <= t.attribute.value.lo <= t.attribute.value.hi <= t.next <= |h|
  {
    var s := Run(h, at, SpaceOrSlash);
    if s >= |h| then Starves
    else if h[s] == GT then Closes(s + 1)
    else AttributeAt(h, s)
  }

  /** All attributes of a tag in document order, and the position after its `>`. */
  datatype Attributes = Closed(list: seq<Attribute>, end: nat) | Open

  /** Every attribute starts at or after `lo` and ends before `hi`; its name is not empty. */
  predicate Within(list: seq<Attribute>, lo: nat, hi: nat) {
    forall i :: 0 <= i < |list| ==>
                  && lo <= list[i].name.lo < list[i].name.hi <= list[i].value.lo
                  && list[i].value.lo <= list[i].value.hi < hi
  }

  function ReadAttributes(h: seq<byte>, at: nat): (r: Attributes)
    requires at <= |h|
    ensures r.Closed? ==> at < r.end <= |h|
    ensures r.Closed? ==> Within(r.list, at, r.end)
    decreases |h| - at
  {
    match NextAttribute(h, at)
    case Starves => Open
    case Closes(end) => Closed([], end)
    case Reads(a, next) =>
      match ReadAttributes(h, next)
      case Open => Open
      case Closed(rest, end) => Closed([a] + rest, end)
  }

  /** A tag: the span of its name, its attributes, and where it ends. */
  datatype Scanned = Tag(name: Span, attributes: seq<Attribute>, end: nat) | Unterminated

  function Tagged(h: seq<byte>, start: nat): (t: Scanned)
    requires start <= |h|
    ensures t.Tag? ==> start == t.name.lo <= t.name.hi < t.end <= |h|
    ensures t.Tag? ==> Within(t.attributes, t.name.hi, t.end)
  {
    var nameEnd := Run(h, start, NameByte);
    match ReadAttributes(h, nameEnd)
    case Open => Unterminated
    case Closed(list, end) => Tag(Span(start, nameEnd), list, end)
  }

  function TagEnd(h: seq<byte>, start: nat): (end: nat)
    requires start <= |h|
    ensures start <= end <= |h|
  {
    match Tagged(h, start)
    case Tag(_, _, end) => end
    case Unterminated => |h|
  }

  // ----- the fields of a tag: the first attribute of each wanted name

  datatype Field = Href | Action | HttpEquiv | Content {
    function Name(): seq<byte> {
      match this
      case Href => [104, 114, 101, 102]
      case Action => [97, 99, 116, 105, 111, 110]
      case HttpEquiv => [104, 116, 116, 112, 45, 101, 113, 117, 105, 118]
      case Content => [99, 111, 110, 116, 101, 110, 116]
    }
  }

  predicate AttributesIn(h: seq<byte>, list: seq<Attribute>) {
    forall i :: 0 <= i < |list| ==> InBounds(h, list[i].name) && InBounds(h, list[i].value)
  }

  predicate IsFirstNamed(h: seq<byte>, list: seq<Attribute>, field: Field, k: nat)
    requires AttributesIn(h, list) && k <= |list|
  {
    && (k < |list| ==> EqIgnoreCase(Slice(h, list[k].name), field.Name()))
    && forall i :: 0 <= i < k ==> !EqIgnoreCase(Slice(h, list[i].name), field.Name())
  }

  /** The index of the first attribute called `field`, or the length of the list. */
  function FirstNamed(h: seq<byte>, list: seq<Attribute>, field: Field): (k: nat)
    requires AttributesIn(h, list)
    ensures k <= |list|
    ensures k < |list| ==> InBounds(h, list[k].value)
    ensures IsFirstNamed(h, list, field, k)
  {
    if list == [] || EqIgnoreCase(Slice(h, list[0].name), field.Name()) then 0
    else 1 + FirstNamed(h, list[1..], field)
  }

  function FieldOf(h: seq<byte>, list: seq<Attribute>, field: Field): (r: Option<Span>)
    requires AttributesIn(h, list)
  {
    var k := FirstNamed(h, list, field);
    if k < |list| then Some(list[k].value) else None
  }

  /** What the scanner has kept for `wanted` in its list of (field, value) pairs. */
  function Kept(fields: seq<(Field, Span)>, wanted: Field): Option<Span> {
    if fields == [] then None
    else if fields[0].0 == wanted then Some(fields[0].1)
    else Kept(fields[1..], wanted)
  }

  lemma {:induction false} KeptAppend(fields: seq<(Field, Span)>, field: Field, value: Span, wanted: Field)
    ensures Kept(fields + [(field, value)], wanted)
         == if Kept(fields, wanted).Some? then Kept(fields, wanted)
            else if wanted == field then Some(value) else None
  {
    if fields == [] {
    } else {
      assert (fields + [(field, value)])[1..] == fields[1..] + [(field, value)];
      KeptAppend(fields[1..], field, value, wanted);
    }
  }

  lemma {:induction false} FieldOfAppend(h: seq<byte>, list: seq<Attribute>, a: Attribute, field: Field)
    requires AttributesIn(h, list) && InBounds(h, a.name) && InBounds(h, a.value)
    ensures AttributesIn(h, list + [a])
    ensures FieldOf(h, list + [a], field)
         == if FieldOf(h, list, field).Some? then FieldOf(h, list, field)
            else if EqIgnoreCase(Slice(h, a.name), field.Name()) then Some(a.value) else None
  {
    hide EqIgnoreCase;
    if list == [] {
    } else {
      assert (list + [a])[1..] == list[1..] + [a];
      FieldOfAppend(h, list[1..], a, field);
    }
  }

  const FIELDS: seq<Field> := [Href, Action, HttpEquiv, Content]

  /** `Tag::keep`: remember `value` under each wanted field that has this name and no value yet. */
  method Keep(h: seq<byte>, fields: seq<(Field, Span)>, name: Span, value: Span)
    returns (kept: seq<(Field, Span)>)
    requires InBounds(h, name)
    ensures forall f :: Kept(kept, f) == if Kept(fields, f).Some? then Kept(fields, f)
                                         else if EqIgnoreCase(Slice(h, name), f.Name()) then Some(value) else None
  {
    kept := fields;
    for i := 0 to |FIELDS|
      invariant forall f :: Kept(kept, f)
                         == if Kept(fields, f).Some? then Kept(fields, f)
                            else if f in FIELDS[..i] && EqIgnoreCase(Slice(h, name), f.Name()) then Some(value)
                            else None
    {
      var field := FIELDS[i];
      if EqIgnoreCase(Slice(h, name), field.Name()) && Kept(kept, field).None? {
        forall f { KeptAppend(kept, field, value, f); }
        kept := kept + [(field, value)];
      }
      assert FIELDS[..i + 1] == FIELDS[..i] + [field];
    }
    assert FIELDS[..|FIELDS|] == FIELDS;
    forall f: Field ensures f in FIELDS {
      match f
      case Href => assert FIELDS[0] == f;
      case Action => assert FIELDS[1] == f;
      case HttpEquiv => assert FIELDS[2] == f;
      case Content => assert FIELDS[3] == f;
    }
  }

  method ScanValue(h: seq<byte>, from: nat) returns (v: Value)
    requires from <= |h|
    ensures v == AttributeValue(h, from)
  {
    var at := FindRun(h, from, Space);
    if at >= |h| {
      return OpenValue;
    }
    var quote := h[at];
    if quote != DQUOTE && quote != SQUOTE {
      var end := FindRun(h, at, UnquotedByte);
      return Value(Span(at, end), end);
    }
    var close := FindRun(h, at + 1, Not(quote));
    if close == |h| {
      return OpenValue;
    }
    v := Value(Span(at + 1, close), close + 1);
  }

  /** One turn of the tag loop. */
  method ScanAttribute(h: seq<byte>, from: nat) returns (t: Turn)
    requires from <= |h|
    ensures t == NextAttribute(h, from)
  {
    hide Run;
    hide AttributeValue;
    var at := FindRun(h, from, SpaceOrSlash);
    if at >= |h| {
      return Starves;
    }
    if h[at] == GT {
      return Closes(at + 1);
    }
    var nameEnd := FindRun(h, at + 1, AttributeNameByte);
    var name := Span(at, nameEnd);
    at := FindRun(h, nameEnd, Space);
    var value := Span(at, at);
    if Is(h, at, [EQUALS]) {
      var v := ScanValue(h, at + 1);
      if v.OpenValue? {
        return Starves;
      }
      value := v.span;
      at := v.next;
    }
    t := Reads(Attribute(name, value), at);
  }

  /** What `ReadAttributes` finds after the attributes already `read`. */
  function Continue(read: seq<Attribute>, rest: Attributes): Attributes {
    match rest
    case Open => Open
    case Closed(list, end) => Closed(read + list, end)
  }

  lemma ContinueReading(h: seq<byte>, at: nat, read: seq<Attribute>)
    requires at <= |h|
    requires NextAttribute(h, at).Reads?
    ensures var t := NextAttribute(h, at);
            Continue(read, ReadAttributes(h, at)) == Continue(read + [t.attribute], ReadAttributes(h, t.next))
  {
    hide NextAttribute;
    var t := NextAttribute(h, at);
    var rest := ReadAttributes(h, t.next);
    if rest.Closed? {
      assert read + ([t.attribute] + rest.list) == read + [t.attribute] + rest.list;
    }
  }

  /** The tag scanner: `fields` ends up holding the first value of each wanted name. */
  method ScanTag(h: seq<byte>, start: nat) returns (closed: bool, end: nat, fields: seq<(Field, Span)>)
    requires start <= |h|
    ensures closed <==> Tagged(h, start).Tag?
    ensures end == TagEnd(h, start)
    ensures closed ==> AttributesIn(h, Tagged(h, start).attributes)
    ensures closed ==> forall f :: Kept(fields, f) == FieldOf(h, Tagged(h, start).attributes, f)
  {
    hide EqIgnoreCase;
    hide NextAttribute;
    hide Run;
    var nameEnd := FindRun(h, start, NameByte);
    var at := nameEnd;
    fields := [];
    ghost var read: seq<Attribute> := [];
    while true
      invariant nameEnd <= at <= |h|
      invariant ReadAttributes(h, nameEnd) == Continue(read, ReadAttributes(h, at))
      invariant AttributesIn(h, read)
      invariant forall f :: Kept(fields, f) == FieldOf(h, read, f)
      decreases |h| - at
    {
      var turn := ScanAttribute(h, at);
      match turn
      case Starves =>
        return false, |h|, fields;
      case Closes(e) =>
        assert read + [] == read;
        return true, e, fields;
      case Reads(a, next) =>
        fields := Keep(h, fields, a.name, a.value);
        forall f { FieldOfAppend(h, read, a, f); }
        ContinueReading(h, at, read);
        read := read + [a];
        at := next;
    }
  }

  // ----- end tags, comments, raw text

  function EndTag(h: seq<byte>, at: nat): (end: nat)
    requires at <= |h|
    ensures at <= end <= |h|
  {
    if at >= |h| then |h|
    else if h[at] == GT then at + 1
    else if !IsAlpha(h[at]) then Past(h, at, GT)
    else TagEnd(h, at)
  }

  /** Whether a comment whose text so far is `text` is closed by the `>` that follows it. */
  predicate ClosesComment(text: seq<byte>) {
    var n := |text|;
    || n == 0
    || (n == 1 && text[0] == DASH)
    || (n >= 2 && text[n - 2] == DASH && text[n - 1] == DASH)
    || (n >= 3 && text[n - 3] == DASH && text[n - 2] == DASH && text[n - 1] == BANG)
  }

  function CommentFrom(h: seq<byte>, start: nat, close: nat): (end: nat)
    requires start <= close <= |h|
    ensures close <= end <= |h|
    decreases |h| - close
  {
    var gt := Run(h, close, Not(GT));
    if gt == |h| then |h|
    else if ClosesComment(h[start..gt]) then gt + 1
    else CommentFrom(h, start, gt + 1)
  }

  lemma CommentUnfolds(h: seq<byte>, start: nat, close: nat)
    requires start <= close <= |h|
    ensures var gt := Run(h, close, Not(GT));
            CommentFrom(h, start, close)
            == if gt == |h| then |h| else if ClosesComment(h[start..gt]) then gt + 1 else CommentFrom(h, start, gt + 1)
  {
    hide Run;
    hide ClosesComment;
  }

  method ScanComment(h: seq<byte>, start: nat) returns (end: nat)
    requires start <= |h|
    ensures end == CommentFrom(h, start, start)
  {
    hide CommentFrom;
    hide ClosesComment;
    hide Run;
    hide AllAccepted;
    var close := start;
    while true
      invariant start <= close <= |h|
      invariant CommentFrom(h, start, close) == CommentFrom(h, start, start)
      decreases |h| - close
    {
      CommentUnfolds(h, start, close);
      close := FindRun(h, close, Not(GT));
      if close == |h| || ClosesComment(h[start..close]) {
        return if close + 1 <= |h| then close + 1 else |h|;
      }
      close := close + 1;
    }
  }

  predicate Named(h: seq<byte>, at: nat, name: seq<byte>) {
    at + |name| < |h| && EqIgnoreCase(h[at..at + |name|], name) && EndsName(h[at + |name|])
  }

  predicate ClosesElement(h: seq<byte>, at: nat, name: seq<byte>) {
    at + 1 < |h| && h[at] == LT && h[at + 1] == SLASH && Named(h, at + 2, name)
  }

  /** Where the end tag of the element `name` starts. */
  function RawCloser(h: seq<byte>, at: nat, name: seq<byte>): (r: Option<nat>)
    requires at <= |h|
    ensures r.Some? ==> at <= r.value && ClosesElement(h, r.value, name)
    decreases |h| - at
  {
    var open := Run(h, at, Not(LT));
    if open >= |h| then None
    else if ClosesElement(h, open, name) then Some(open)
    else RawCloser(h, open + 1, name)
  }

  /** The end of an element whose end tag starts at `closer`. */
  function ElementEnd(h: seq<byte>, closer: Option<nat>): (end: nat)
    requires closer.Some? ==> closer.value + 2 <= |h|
    ensures end <= |h|
    ensures closer.Some? ==> closer.value + 2 <= end
  {
    match closer
    case None => |h|
    case Some(at) => TagEnd(h, at + 2)
  }

  function RawEnd(h: seq<byte>, at: nat, name: seq<byte>): (end: nat)
    requires at <= |h|
    ensures at <= end <= |h|
  {
    ElementEnd(h, RawCloser(h, at, name))
  }

  method ScanRaw(h: seq<byte>, from: nat, name: seq<byte>) returns (end: nat)
    requires from <= |h|
    ensures end == RawEnd(h, from, name)
  {
    hide Named;
    hide Run;
    hide AllAccepted;
    hide TagEnd;
    var at := from;
    while at < |h|
      invariant from <= at <= |h| + 1
      invariant RawCloser(h, from, name) == if at <= |h| then RawCloser(h, at, name) else None
    {
      var open := FindRun(h, at, Not(LT));
      if ClosesElement(h, open, name) {
        var closed, e, fields := ScanTag(h, open + 2);
        return e;
      }
      at := open + 1;
    }
    end := |h|;
  }

  // ----- script data

  /** Script text: plain, escaped by a comment, or in a script inside that; with trailing dashes. */
  datatype Script = Data | Escaped(dashes: nat) | Double(dashes: nat) {
    predicate Valid() {
      match this
      case Data => true
      case Escaped(d) => d <= 2
      case Double(d) => d <= 2
    }

    function After(b: byte): Script {
      match this
      case Data => Data
      case Escaped(d) =>
        if d == 2 && b == GT then Data
        else if b == DASH then Escaped(if d + 1 <= 2 then d + 1 else 2)
        else Escaped(0)
      case Double(d) =>
        if d == 2 && b == GT then Data
        else if b == DASH then Double(if d + 1 <= 2 then d + 1 else 2)
        else Double(0)
    }

    function Opens(h: seq<byte>, at: nat): (r: (Script, nat))
      requires at < |h|
      ensures at < r.1 <= |h|
      ensures Valid() ==> r.0.Valid()
    {
      match this
      case Data =>
        if StartsWith(h[at..], [LT, BANG, DASH, DASH]) then (Escaped(2), at + 4) else (Data, at + 1)
      case Escaped(_) =>
        if Named(h, at + 1, SCRIPT) then (Double(0), at + 8) else (Escaped(0), at + 1)
      case Double(_) =>
        if ClosesElement(h, at, SCRIPT) then (Escaped(0), at + 9) else (Double(0), at + 1)
    }
  }

  /** Where the `</script` that ends the element starts, from `state` at `at`. */
  function ScriptCloser(h: seq<byte>, at: nat, state: Script): (r: Option<nat>)
    requires at <= |h|
    ensures r.Some? ==> at <= r.value && ClosesElement(h, r.value, SCRIPT)
    decreases |h| - at
  {
    if at >= |h| then None
    else if h[at] != LT then ScriptCloser(h, at + 1, state.After(h[at]))
    else if !state.Double? && ClosesElement(h, at, SCRIPT) then Some(at)
    else
      var (next, to) := state.Opens(h, at);
      ScriptCloser(h, to, next)
  }

  function ScriptEnd(h: seq<byte>, from: nat): (end: nat)
    requires from <= |h|
    ensures from <= end <= |h|
  {
    ElementEnd(h, ScriptCloser(h, from, Data))
  }

  method ScanScript(h: seq<byte>, from: nat) returns (end: nat)
    requires from <= |h|
    ensures end == ScriptEnd(h, from)
  {
    hide Named;
    hide TagEnd;
    var state := Data;
    var at := from;
    while at < |h|
      invariant from <= at <= |h|
      invariant ScriptCloser(h, at, state) == ScriptCloser(h, from, Data)
    {
      if h[at] != LT {
        state := state.After(h[at]);
        at := at + 1;
      } else if !state.Double? && ClosesElement(h, at, SCRIPT) {
        var closed, e, fields := ScanTag(h, at + 2);
        return e;
      } else {
        var r := state.Opens(h, at);
        state, at := r.0, r.1;
      }
    }
    end := |h|;
  }
}
