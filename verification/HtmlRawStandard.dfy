/**
 Raw text against the HTML Standard, sections 13.2.5.2, 13.2.5.3 and 13.2.5.9 to 13.2.5.14: the search for
 an end tag in RCDATA and RAWTEXT elements finds the end tag that the byte-at-a-time tokenizer finds.
 */
module HtmlRawStandard {
  import opened Bytes
  import opened HtmlScan
  import opened HtmlStandard

  datatype RawState = RawText | RawLess | RawEndTagOpen | RawEndTagName(buffer: seq<byte>)

  function RawStep(s: RawState, b: byte, name: seq<byte>): Move<RawState> {
    match s
    case RawText => Consume(if b == LT then RawLess else RawText)
    case RawLess => if b == SLASH then Consume(RawEndTagOpen) else Reconsume(RawText)
    case RawEndTagOpen => Reconsume(if IsAlpha(b) then RawEndTagName([]) else RawText)
    case RawEndTagName(buffer) =>
      if IsAlpha(b) then Consume(RawEndTagName(buffer + [Lower(b)]))
      else if EndsName(b) && buffer == name then Finish
      else Reconsume(RawText)
  }

  function RawRank(s: RawState): nat {
    match s
    case RawText => 0
    case RawEndTagName(_) => 1
    case _ => 2
  }

  function RawByte(s: RawState, b: byte, name: seq<byte>): (m: Move<RawState>)
    ensures !m.Reconsume?
    decreases RawRank(s)
  {
    match RawStep(s, b, name)
    case Reconsume(t) => RawByte(t, b, name)
    case move => move
  }

  /** The position of the `<` of the appropriate end tag, which its name and two bytes precede. */
  function RawMachine(h: seq<byte>, at: nat, s: RawState, name: seq<byte>): Option<int>
    requires at <= |h|
    decreases |h| - at
  {
    if at == |h| then None
    else match RawByte(s, h[at], name)
         case Finish => Some(at - |name| - 2)
         case Consume(t) => RawMachine(h, at + 1, t, name)
  }

  predicate LowerLetters(name: seq<byte>) {
    name != [] && forall i :: 0 <= i < |name| ==> IsLower(name[i])
  }

  lemma RawReads(h: seq<byte>, at: nat, s: RawState, t: RawState, name: seq<byte>)
    requires at < |h| && RawByte(s, h[at], name) == Consume(t)
    ensures RawMachine(h, at, s, name) == RawMachine(h, at + 1, t, name)
  {}

  lemma RawRetries(h: seq<byte>, at: nat, s: RawState, t: RawState, name: seq<byte>)
    requires at <= |h| && (at < |h| ==> RawStep(s, h[at], name) == Reconsume(t))
    ensures RawMachine(h, at, s, name) == RawMachine(h, at, t, name)
  {}

  /** A name is collected to its last letter, then decided by the byte after it. */
  lemma {:induction false} RawCollects(h: seq<byte>, at: nat, buffer: seq<byte>, name: seq<byte>)
    requires at <= |h|
    ensures var e := Letters(h, at);
            RawMachine(h, at, RawEndTagName(buffer), name)
            == if e < |h| && EndsName(h[e]) && buffer + Lowered(h[at..e]) == name then Some(e - |name| - 2)
               else RawMachine(h, e, RawText, name)
    decreases |h| - at
  {
    hide Lowered;
    hide Lower;
    var e := Letters(h, at);
    LoweredGrows(h, at, e, buffer);
    if at < e {
      CollectorStays(h, at, buffer, name);
      RawCollects(h, at + 1, buffer + [Lower(h[at])], name);
    } else {
      CollectorStops(h, at, buffer, name);
    }
  }

  lemma CollectorStays(h: seq<byte>, at: nat, buffer: seq<byte>, name: seq<byte>)
    requires at < |h| && IsAlpha(h[at])
    ensures RawMachine(h, at, RawEndTagName(buffer), name) == RawMachine(h, at + 1, RawEndTagName(buffer + [Lower(h[at])]), name)
    ensures Letters(h, at) == Letters(h, at + 1)
  {
    hide Lower;
  }

  lemma CollectorStops(h: seq<byte>, at: nat, buffer: seq<byte>, name: seq<byte>)
    requires at <= |h| && (at < |h| ==> !IsAlpha(h[at]))
    ensures RawMachine(h, at, RawEndTagName(buffer), name)
         == if at < |h| && EndsName(h[at]) && buffer == name then Some(at - |name| - 2) else RawMachine(h, at, RawText, name)
  {
    if at < |h| && !(EndsName(h[at]) && buffer == name) {
      RawRetries(h, at, RawEndTagName(buffer), RawText, name);
    }
  }

  /** `named` recognises exactly a whole letter run that spells the name, and a name terminator. */
  lemma NamedIsSpelled(h: seq<byte>, at: nat, name: seq<byte>)
    requires at <= |h| && LowerLetters(name)
    ensures var e := Letters(h, at);
            Named(h, at, name) <==> e < |h| && EndsName(h[e]) && Lowered(h[at..e]) == name
    ensures Named(h, at, name) ==> Letters(h, at) == at + |name|
  {
    var e, n := Letters(h, at), |name|;
    if Named(h, at, name) {
      var t := h[at..at + n];
      forall i | at <= i < at + n ensures IsAlpha(h[i]) && Lower(h[i]) == name[i - at] {
        assert Lower(t[i - at]) == Lower(name[i - at]) && t[i - at] == h[i];
      }
      assert e == at + n;
      assert Lowered(h[at..e]) == name;
    }
    if e < |h| && EndsName(h[e]) && Lowered(h[at..e]) == name {
      assert |Lowered(h[at..e])| == n;
      forall i | 0 <= i < n ensures Lower(h[at..e][i]) == Lower(name[i]) {
        assert Lowered(h[at..e])[i] == name[i];
      }
    }
  }

  /** Text that is not `<` is passed over. */
  lemma CloserPasses(h: seq<byte>, at: nat, name: seq<byte>)
    requires at < |h|
    ensures h[at] != LT ==> RawCloser(h, at, name) == RawCloser(h, at + 1, name)
    ensures h[at] == LT ==> RawCloser(h, at, name) == if ClosesElement(h, at, name) then Some(at) else RawCloser(h, at + 1, name)
  {
    hide ClosesElement;
    if h[at] != LT {
      RunIs(h, at, Not(LT), Run(h, at + 1, Not(LT)));
    }
  }

  lemma {:induction false} LettersPassed(h: seq<byte>, at: nat, name: seq<byte>)
    requires at <= |h|
    ensures RawCloser(h, at, name) == RawCloser(h, Letters(h, at), name)
    decreases |h| - at
  {
    hide RawCloser;
    if at < Letters(h, at) {
      CloserPasses(h, at, name);
      LettersPassed(h, at + 1, name);
    }
  }

  lemma CloserAtEnd(h: seq<byte>, name: seq<byte>)
    ensures RawCloser(h, |h|, name) == None
  {}

  /** `raw_end` and the raw-text states agree on every document, from every position. */
  lemma {:induction false} RawAgrees(h: seq<byte>, at: nat, name: seq<byte>)
    requires at <= |h| && LowerLetters(name)
    ensures RawCloser(h, at, name) == RawMachine(h, at, RawText, name)
    decreases |h| - at
  {
    hide RawCloser;
    hide RawMachine;
    hide Named;
    hide LowerLetters;
    if at == |h| {
      CloserAtEnd(h, name);
      MachineStops(h, RawText, name);
    } else {
      CloserPasses(h, at, name);
      RawReads(h, at, RawText, if h[at] == LT then RawLess else RawText, name);
      if h[at] != LT {
        RawAgrees(h, at + 1, name);
      } else if at + 1 < |h| && h[at + 1] == SLASH {
        AfterLessSlash(h, at, name);
      } else {
        RawRetries(h, at + 1, RawLess, RawText, name);
        RawAgrees(h, at + 1, name);
      }
    }
  }

  lemma MachineStops(h: seq<byte>, s: RawState, name: seq<byte>)
    ensures RawMachine(h, |h|, s, name) == None
  {}

  lemma {:induction false} AfterLessSlash(h: seq<byte>, at: nat, name: seq<byte>)
    requires at + 1 < |h| && h[at] == LT && h[at + 1] == SLASH && LowerLetters(name)
    ensures RawCloser(h, at, name) == RawMachine(h, at + 1, RawLess, name)
    decreases |h| - at, 0
  {
    hide RawCloser;
    hide RawMachine;
    hide Named;
    hide Lowered;
    hide LowerLetters;
    var e := Letters(h, at + 2);
    RawReads(h, at + 1, RawLess, RawEndTagOpen, name);
    CloserPasses(h, at, name);
    CloserPasses(h, at + 1, name);
    LettersPassed(h, at + 2, name);
    NamedIsSpelled(h, at + 2, name);
    NameFollows(h, at + 2, name);
    RawAgrees(h, e, name);
  }

  /** From `</` on: the end tag if it is spelled here, or text from the first byte after the letters. */
  lemma NameFollows(h: seq<byte>, at: nat, name: seq<byte>)
    requires at <= |h| && LowerLetters(name)
    ensures var e := Letters(h, at);
            RawMachine(h, at, RawEndTagOpen, name)
            == if e < |h| && EndsName(h[e]) && Lowered(h[at..e]) == name then Some(e - |name| - 2)
               else RawMachine(h, e, RawText, name)
  {
    hide RawMachine;
    var e := Letters(h, at);
    if at < e {
      RawRetries(h, at, RawEndTagOpen, RawEndTagName([]), name);
      RawCollects(h, at, [], name);
      assert [] + Lowered(h[at..e]) == Lowered(h[at..e]);
    } else {
      RawRetries(h, at, RawEndTagOpen, RawText, name);
      assert Lowered(h[at..at]) == [];
    }
  }

  /** Where a raw-text element ends, in terms of the standard's machine. */
  lemma RawIsStandard(h: seq<byte>, from: nat, k: nat)
    requires from <= |h| && k < |RAW|
    ensures var found := RawMachine(h, from, RawText, RAW[k]);
            && (found.Some? ==> 0 <= found.value && found.value + 2 <= |h|)
            && RawEnd(h, from, RAW[k]) == if found.None? then |h| else TagEnd(h, found.value + 2)
  {
    hide RawCloser;
    hide RawMachine;
    hide TagEnd;
    hide Named;
    RawNamesAreLetters(k);
    RawAgrees(h, from, RAW[k]);
  }

  lemma RawNamesAreLetters(k: nat)
    requires k < |RAW|
    ensures LowerLetters(RAW[k])
  {}
}
