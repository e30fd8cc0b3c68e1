/**
 The comment and script-data tokenizer states of the WHATWG HTML Standard, section 13.2.5, one byte
 at a time, and the proofs that the portal's look-back and jump scanners end where they end.
 */
module HtmlStandard {
  import opened Bytes
  import opened HtmlScan

  /** What a state does with a byte; `Finish` leaves the element or comment. */
  datatype Move<+S> = Consume(next: S) | Reconsume(next: S) | Finish

  // ----- comments (sections 13.2.5.43 to 13.2.5.52)

  datatype CommentState =
    | CommentStart
    | CommentStartDash
    | Comment
    | CommentLess
    | CommentLessBang
    | CommentLessBangDash
    | CommentLessBangDashDash
    | CommentEndDash
    | CommentEnd
    | CommentEndBang

  function CommentStep(s: CommentState, b: byte): Move<CommentState> {
    match s
    case CommentStart =>
      if b == DASH then Consume(CommentStartDash) else if b == GT then Finish else Reconsume(Comment)
    case CommentStartDash =>
      if b == DASH then Consume(CommentEnd) else if b == GT then Finish else Reconsume(Comment)
    case Comment =>
      if b == LT then Consume(CommentLess) else if b == DASH then Consume(CommentEndDash) else Consume(Comment)
    case CommentLess =>
      if b == BANG then Consume(CommentLessBang) else if b == LT then Consume(CommentLess) else Reconsume(Comment)
    case CommentLessBang =>
      if b == DASH then Consume(CommentLessBangDash) else Reconsume(Comment)
    case CommentLessBangDash =>
      if b == DASH then Consume(CommentLessBangDashDash) else Reconsume(CommentEndDash)
    case CommentLessBangDashDash => Reconsume(CommentEnd)
    case CommentEndDash =>
      if b == DASH then Consume(CommentEnd) else Reconsume(Comment)
    case CommentEnd =>
      if b == GT then Finish else if b == BANG then Consume(CommentEndBang)
      else if b == DASH then Consume(CommentEnd) else Reconsume(Comment)
    case CommentEndBang =>
      if b == DASH then Consume(CommentEndDash) else if b == GT then Finish else Reconsume(Comment)
  }

  function CommentRank(s: CommentState): nat {
    match s
    case Comment => 0
    case CommentLessBangDash => 2
    case CommentLessBangDashDash => 2
    case _ => 1
  }

  /** One byte, with every "reconsume" carried out. */
  function CommentByte(s: CommentState, b: byte): (m: Move<CommentState>)
    ensures !m.Reconsume?
    decreases CommentRank(s)
  {
    match CommentStep(s, b)
    case Reconsume(t) => CommentByte(t, b)
    case move => move
  }

  /** The position after the `>` that ends the comment, or the end of the document. */
  function CommentMachine(h: seq<byte>, at: nat, s: CommentState): (end: nat)
    requires at <= |h|
    ensures at <= end <= |h|
    decreases |h| - at
  {
    if at == |h| then |h|
    else match CommentByte(s, h[at])
         case Finish => at + 1
         case Consume(t) => CommentMachine(h, at + 1, t)
  }

  predicate Ends(h: seq<byte>, lo: nat, hi: nat, last: byte)
    requires lo <= hi <= |h|
  {
    lo < hi && h[hi - 1] == last
  }

  /** What the text read so far, `h[lo..hi]`, says about the state: all the look-back there is. */
  predicate Remembers(h: seq<byte>, lo: nat, hi: nat, s: CommentState)
    requires lo <= hi <= |h|
  {
    match s
    case CommentStart => lo == hi
    case CommentStartDash => hi == lo + 1 && h[lo] == DASH
    case CommentEnd => hi >= lo + 2 && h[hi - 1] == DASH && h[hi - 2] == DASH
    case CommentLessBangDashDash => hi >= lo + 2 && h[hi - 1] == DASH && h[hi - 2] == DASH
    case CommentEndBang =>
      hi >= lo + 3 && h[hi - 1] == BANG && h[hi - 2] == DASH && h[hi - 3] == DASH
    case CommentEndDash => hi >= lo + 2 && h[hi - 1] == DASH && h[hi - 2] != DASH
    case CommentLessBangDash => hi >= lo + 2 && h[hi - 1] == DASH && h[hi - 2] != DASH
    case Comment => lo < hi && h[hi - 1] != DASH && !ClosesComment(h[lo..hi])
    case CommentLess => lo < hi && h[hi - 1] == LT
    case CommentLessBang => hi >= lo + 2 && h[hi - 1] == BANG && h[hi - 2] == LT
  }

  lemma CommentByteRemembers(h: seq<byte>, lo: nat, at: nat, s: CommentState)
    requires lo <= at < |h|
    requires Remembers(h, lo, at, s)
    ensures CommentByte(s, h[at]).Finish? <==> h[at] == GT && ClosesComment(h[lo..at])
    ensures CommentByte(s, h[at]).Consume? ==> Remembers(h, lo, at + 1, CommentByte(s, h[at]).next)
  {
    var text, more := h[lo..at], h[lo..at + 1];
    assert forall k :: lo <= k < at ==> h[k] == text[k - lo];
    assert forall k :: lo <= k <= at ==> h[k] == more[k - lo];
  }

  /** The look-back scanner and the state machine agree on every document, from every position. */
  lemma {:induction false} CommentsAgree(h: seq<byte>, lo: nat, at: nat, s: CommentState)
    requires lo <= at <= |h|
    requires Remembers(h, lo, at, s)
    ensures CommentFrom(h, lo, at) == CommentMachine(h, at, s)
    decreases |h| - at
  {
    hide Remembers;
    hide CommentByte;
    hide ClosesComment;
    if at < |h| {
      CommentByteRemembers(h, lo, at, s);
      if h[at] != GT {
        RunIs(h, at, Not(GT), Run(h, at + 1, Not(GT)));
      }
      match CommentByte(s, h[at])
      case Finish =>
      case Consume(t) => CommentsAgree(h, lo, at + 1, t);
    }
  }

  lemma CommentIsStandard(h: seq<byte>, start: nat)
    requires start <= |h|
    ensures CommentFrom(h, start, start) == CommentMachine(h, start, CommentStart)
  {
    CommentsAgree(h, start, start, CommentStart);
  }

  // ----- script data (sections 13.2.5.4, 13.2.5.15 to 13.2.5.31)

  /** Which state is collecting letters: an end tag name, or the name after an escaped `<` or `</`. */
  datatype Collector = EndTagName | EscapedEndTagName | DoubleEscapeStart | DoubleEscapeEnd {
    function Fallback(): ScriptState {
      match this
      case EndTagName => ScriptData
      case EscapedEndTagName => EscapedText
      case DoubleEscapeStart => EscapedText
      case DoubleEscapeEnd => DoubleEscaped
    }
  }

  datatype ScriptState =
    | ScriptData
    | ScriptLess
    | EndTagOpen
    | EscapeStart
    | EscapeStartDash
    | EscapedText
    | EscapedDash
    | EscapedDashDash
    | EscapedLessThan
    | EscapedEndTagOpen
    | DoubleEscaped
    | DoubleEscapedDash
    | DoubleEscapedDashDash
    | DoubleEscapedLess
    | Collecting(collector: Collector, buffer: seq<byte>)

  function ScriptStep(s: ScriptState, b: byte): Move<ScriptState> {
    match s
    case ScriptData => Consume(if b == LT then ScriptLess else ScriptData)
    case ScriptLess =>
      if b == SLASH then Consume(EndTagOpen) else if b == BANG then Consume(EscapeStart) else Reconsume(ScriptData)
    case EndTagOpen => Reconsume(if IsAlpha(b) then Collecting(EndTagName, []) else ScriptData)
    case EscapeStart => if b == DASH then Consume(EscapeStartDash) else Reconsume(ScriptData)
    case EscapeStartDash => if b == DASH then Consume(EscapedDashDash) else Reconsume(ScriptData)
    case EscapedText =>
      Consume(if b == DASH then EscapedDash else if b == LT then EscapedLessThan else EscapedText)
    case EscapedDash =>
      Consume(if b == DASH then EscapedDashDash else if b == LT then EscapedLessThan else EscapedText)
    case EscapedDashDash =>
      Consume(if b == DASH then EscapedDashDash else if b == LT then EscapedLessThan
           else if b == GT then ScriptData else EscapedText)
    case EscapedLessThan =>
      if b == SLASH then Consume(EscapedEndTagOpen)
      else Reconsume(if IsAlpha(b) then Collecting(DoubleEscapeStart, []) else EscapedText)
    case EscapedEndTagOpen => Reconsume(if IsAlpha(b) then Collecting(EscapedEndTagName, []) else EscapedText)
    case DoubleEscaped =>
      Consume(if b == DASH then DoubleEscapedDash else if b == LT then DoubleEscapedLess else DoubleEscaped)
    case DoubleEscapedDash =>
      Consume(if b == DASH then DoubleEscapedDashDash else if b == LT then DoubleEscapedLess else DoubleEscaped)
    case DoubleEscapedDashDash =>
      Consume(if b == DASH then DoubleEscapedDashDash else if b == LT then DoubleEscapedLess
           else if b == GT then ScriptData else DoubleEscaped)
    case DoubleEscapedLess =>
      if b == SLASH then Consume(Collecting(DoubleEscapeEnd, [])) else Reconsume(DoubleEscaped)
    case Collecting(c, buffer) =>
      if IsAlpha(b) then Consume(Collecting(c, buffer + [Lower(b)]))
      else if !EndsName(b) then Reconsume(c.Fallback())
      else match c
           case EndTagName => if buffer == SCRIPT then Finish else Reconsume(c.Fallback())
           case EscapedEndTagName => if buffer == SCRIPT then Finish else Reconsume(c.Fallback())
           case DoubleEscapeStart => Consume(if buffer == SCRIPT then DoubleEscaped else EscapedText)
           case DoubleEscapeEnd => Consume(if buffer == SCRIPT then EscapedText else DoubleEscaped)
  }

  function ScriptRank(s: ScriptState): nat {
    match s
    case ScriptData => 0
    case EscapedText => 0
    case DoubleEscaped => 0
    case Collecting(_, _) => 1
    case _ => 2
  }

  function ScriptByte(s: ScriptState, b: byte): (m: Move<ScriptState>)
    ensures !m.Reconsume?
    decreases ScriptRank(s)
  {
    match ScriptStep(s, b)
    case Reconsume(t) => ScriptByte(t, b)
    case move => move
  }

  /** The position of the `<` of the appropriate end tag: eight bytes before its terminator. */
  function ScriptMachine(h: seq<byte>, at: nat, s: ScriptState): (r: Option<int>)
    requires at <= |h|
    decreases |h| - at
  {
    if at == |h| then None
    else match ScriptByte(s, h[at])
         case Finish => Some(at - 8)
         case Consume(t) => ScriptMachine(h, at + 1, t)
  }

  /** The states that the compact machine keeps between jumps. */
  function Expand(s: Script): ScriptState {
    match s
    case Data => ScriptData
    case Escaped(d) => if d == 0 then EscapedText else if d == 1 then EscapedDash else EscapedDashDash
    case Double(d) => if d == 0 then DoubleEscaped else if d == 1 then DoubleEscapedDash else DoubleEscapedDashDash
  }

  /** The first position at or after `at` that holds no letter. */
  function Letters(h: seq<byte>, at: nat): (e: nat)
    requires at <= |h|
    ensures at <= e <= |h|
    ensures forall i :: at <= i < e ==> IsAlpha(h[i])
    ensures e < |h| ==> !IsAlpha(h[e])
    decreases |h| - at
  {
    if at < |h| && IsAlpha(h[at]) then Letters(h, at + 1) else at
  }

  function Lowered(s: seq<byte>): seq<byte> {
    seq(|s|, i requires 0 <= i < |s| => Lower(s[i]))
  }

  /** What the machine does once a collector has its whole name, at the first non-letter `e`. */
  function Collected(h: seq<byte>, e: nat, c: Collector, name: seq<byte>): Option<int>
    requires e <= |h|
  {
    if e == |h| then None
    else if EndsName(h[e]) && name == SCRIPT then
      match c
      case EndTagName => Some(e - 8)
      case EscapedEndTagName => Some(e - 8)
      case DoubleEscapeStart => ScriptMachine(h, e + 1, DoubleEscaped)
      case DoubleEscapeEnd => ScriptMachine(h, e + 1, EscapedText)
    else ScriptMachine(h, e, c.Fallback())
  }

  lemma {:induction false} CollectorReads(h: seq<byte>, at: nat, c: Collector, buffer: seq<byte>)
    requires at <= |h|
    ensures ScriptMachine(h, at, Collecting(c, buffer))
         == Collected(h, Letters(h, at), c, buffer + Lowered(h[at..Letters(h, at)]))
    decreases |h| - at
  {
    hide Lowered;
    hide Lower;
    hide Collected;
    var e := Letters(h, at);
    LoweredGrows(h, at, e, buffer);
    if at < e {
      CollectorReads(h, at + 1, c, buffer + [Lower(h[at])]);
    } else {
      NotALetter(h, at, c, buffer);
    }
  }

  lemma LoweredGrows(h: seq<byte>, at: nat, e: nat, buffer: seq<byte>)
    requires at <= e <= |h|
    ensures at < e ==> buffer + Lowered(h[at..e]) == buffer + [Lower(h[at])] + Lowered(h[at + 1..e])
    ensures at == e ==> buffer + Lowered(h[at..e]) == buffer
  {
    hide Lower;
    if at < e {
      assert Lowered(h[at..e]) == [Lower(h[at])] + Lowered(h[at + 1..e]);
    }
  }

  /** A collector that is not at a letter has its whole name. */
  lemma NotALetter(h: seq<byte>, at: nat, c: Collector, buffer: seq<byte>)
    requires at <= |h| && Letters(h, at) == at
    ensures ScriptMachine(h, at, Collecting(c, buffer)) == Collected(h, at, c, buffer)
  {}

  /** Letters leave a compact state with no pending dash where it is. */
  lemma {:induction false} LettersPass(h: seq<byte>, at: nat, s: Script)
    requires at <= |h|
    requires s == Data || s == Escaped(0) || s == Double(0)
    ensures ScriptCloser(h, at, s) == ScriptCloser(h, Letters(h, at), s)
    decreases |h| - at
  {
    if at < Letters(h, at) {
      LettersPass(h, at + 1, s);
    }
  }

  /** `named` recognises exactly a whole letter run that spells "script" and a name terminator. */
  lemma NamedIsCollected(h: seq<byte>, at: nat)
    requires at <= |h|
    ensures var e := Letters(h, at);
            Named(h, at, SCRIPT) <==> e < |h| && EndsName(h[e]) && Lowered(h[at..e]) == SCRIPT
    ensures Named(h, at, SCRIPT) ==> Letters(h, at) == at + 6
  {
    var e := Letters(h, at);
    if Named(h, at, SCRIPT) {
      var t := h[at..at + 6];
      assert forall i :: 0 <= i < 6 ==> Lower(t[i]) == SCRIPT[i] && t[i] == h[at + i];
      assert IsAlpha(h[at]) && IsAlpha(h[at + 1]) && IsAlpha(h[at + 2]);
      assert IsAlpha(h[at + 3]) && IsAlpha(h[at + 4]) && IsAlpha(h[at + 5]);
      assert e == at + 6;
      assert Lowered(h[at..e]) == SCRIPT;
    }
    if e < |h| && EndsName(h[e]) && Lowered(h[at..e]) == SCRIPT {
      assert |Lowered(h[at..e])| == 6;
      assert forall i :: 0 <= i < 6 ==> Lower(h[at..e][i]) == Lowered(h[at..e])[i];
    }
  }

  // One byte of each machine; the proofs below unfold nothing else.
  lemma MachineReads(h: seq<byte>, at: nat, s: ScriptState, t: ScriptState)
    requires at < |h|
    requires ScriptByte(s, h[at]) == Consume(t)
    ensures ScriptMachine(h, at, s) == ScriptMachine(h, at + 1, t)
  {}

  lemma MachineRetries(h: seq<byte>, at: nat, s: ScriptState, t: ScriptState)
    requires at <= |h|
    requires at < |h| ==> ScriptStep(s, h[at]) == Reconsume(t)
    ensures ScriptMachine(h, at, s) == ScriptMachine(h, at, t)
  {}

  lemma CloserReads(h: seq<byte>, at: nat, s: Script)
    requires at < |h| && h[at] != LT
    ensures ScriptCloser(h, at, s) == ScriptCloser(h, at + 1, s.After(h[at]))
  {}

  /** The compact script machine and the standard one agree from every position and state. */
  lemma {:induction false} ScriptsAgree(h: seq<byte>, at: nat, s: Script)
    requires at <= |h| && s.Valid()
    ensures ScriptCloser(h, at, s) == ScriptMachine(h, at, Expand(s))
    decreases |h| - at, 2
  {
    if at < |h| {
      if h[at] != LT {
        MachineReads(h, at, Expand(s), Expand(s.After(h[at])));
        ScriptsAgree(h, at + 1, s.After(h[at]));
      } else {
        match s
        case Data => DataLess(h, at);
        case Escaped(_) => EscapedLess(h, at, s);
        case Double(_) => DoubleLess(h, at, s);
      }
    }
  }

  /** One `<` in plain script data. */
  lemma {:induction false} DataLess(h: seq<byte>, at: nat)
    requires at < |h| && h[at] == LT
    ensures ScriptCloser(h, at, Data) == ScriptMachine(h, at, ScriptData)
    decreases |h| - at, 1
  {
    hide Named;
    hide ScriptMachine;
    MachineReads(h, at, ScriptData, ScriptLess);
    if at + 1 < |h| && h[at + 1] == SLASH {
      MachineReads(h, at + 1, ScriptLess, EndTagOpen);
      EndTagOpens(h, at, Data, EndTagOpen, EndTagName);
    } else if at + 1 < |h| && h[at + 1] == BANG {
      MachineReads(h, at + 1, ScriptLess, EscapeStart);
      EscapeOpens(h, at);
    } else {
      MachineRetries(h, at + 1, ScriptLess, ScriptData);
      ScriptsAgree(h, at + 1, Data);
    }
  }

  lemma CloserAtBang(h: seq<byte>, at: nat)
    requires at + 1 < |h| && h[at] == LT && h[at + 1] == BANG
    ensures ScriptCloser(h, at, Data)
         == if at + 3 < |h| && h[at + 2] == DASH && h[at + 3] == DASH then ScriptCloser(h, at + 4, Escaped(2))
            else ScriptCloser(h, at + 1, Data)
  {
    hide Named;
  }

  /** After `<!`: two dashes escape the script, anything else is script data again. */
  lemma {:induction false} EscapeOpens(h: seq<byte>, at: nat)
    requires at + 1 < |h| && h[at] == LT && h[at + 1] == BANG
    ensures ScriptCloser(h, at, Data) == ScriptMachine(h, at + 2, EscapeStart)
    decreases |h| - at, 0
  {
    hide ScriptMachine;
    hide ScriptCloser;
    CloserAtBang(h, at);
    if at + 2 < |h| && h[at + 2] == DASH {
      MachineReads(h, at + 2, EscapeStart, EscapeStartDash);
      if at + 3 < |h| && h[at + 3] == DASH {
        MachineReads(h, at + 3, EscapeStartDash, EscapedDashDash);
        ScriptsAgree(h, at + 4, Escaped(2));
      } else {
        MachineRetries(h, at + 3, EscapeStartDash, ScriptData);
        ScriptsAgree(h, at + 3, Data);
        CloserReads(h, at + 1, Data);
        CloserReads(h, at + 2, Data);
      }
    } else {
      MachineRetries(h, at + 2, EscapeStart, ScriptData);
      ScriptsAgree(h, at + 2, Data);
      CloserReads(h, at + 1, Data);
    }
  }

  /** After `</` outside a double escape: the appropriate end tag is found, or the name is text. */
  lemma {:induction false} EndTagOpens(h: seq<byte>, at: nat, s: Script, open: ScriptState, c: Collector)
    requires at + 1 < |h| && h[at] == LT && h[at + 1] == SLASH
    requires (s == Data && open == EndTagOpen && c == EndTagName)
          || (s.Escaped? && s.Valid() && open == EscapedEndTagOpen && c == EscapedEndTagName)
    ensures ScriptCloser(h, at, s) == ScriptMachine(h, at + 2, open)
    decreases |h| - at, 0
  {
    hide ScriptMachine;
    hide Named;
    var rest := if s == Data then Data else Escaped(0);
    var e := Letters(h, at + 2);
    NamedIsCollected(h, at + 2);
    if at + 2 < e {
      MachineRetries(h, at + 2, open, Collecting(c, []));
      CollectorReads(h, at + 2, c, []);
      assert [] + Lowered(h[at + 2..e]) == Lowered(h[at + 2..e]);
    } else {
      MachineRetries(h, at + 2, open, c.Fallback());
    }
    if !Named(h, at + 2, SCRIPT) {
      SlashIsText(h, at, s, rest);
      LettersPass(h, at + 2, rest);
      ScriptsAgree(h, e, rest);
      MachineAtEnd(h, e, c.Fallback());
    }
  }

  lemma MachineAtEnd(h: seq<byte>, at: nat, s: ScriptState)
    requires at <= |h|
    ensures at == |h| ==> ScriptMachine(h, at, s) == None
  {}

  /** A `</` that closes nothing is two bytes of text. */
  lemma SlashIsText(h: seq<byte>, at: nat, s: Script, rest: Script)
    requires at + 1 < |h| && h[at] == LT && h[at + 1] == SLASH
    requires !Named(h, at + 2, SCRIPT)
    requires (s == rest == Data) || (s.Escaped? && rest == Escaped(0)) || (s.Double? && rest == Double(0))
    ensures ScriptCloser(h, at, s) == ScriptCloser(h, at + 2, rest)
  {
    hide EqIgnoreCase;
    CloserReads(h, at + 1, rest);
    assert !Named(h, at + 1, SCRIPT) by {
      NamedIsCollected(h, at + 1);
    }
  }

  /** One `<` in escaped script data. */
  lemma {:induction false} EscapedLess(h: seq<byte>, at: nat, s: Script)
    requires at < |h| && h[at] == LT
    requires s.Escaped? && s.Valid()
    ensures ScriptCloser(h, at, s) == ScriptMachine(h, at, Expand(s))
    decreases |h| - at, 1
  {
    hide ScriptMachine;
    hide Named;
    MachineReads(h, at, Expand(s), EscapedLessThan);
    if at + 1 < |h| && h[at + 1] == SLASH {
      MachineReads(h, at + 1, EscapedLessThan, EscapedEndTagOpen);
      EndTagOpens(h, at, s, EscapedEndTagOpen, EscapedEndTagName);
    } else {
      var e := Letters(h, at + 1);
      NamedIsCollected(h, at + 1);
      if at + 1 < e {
        MachineRetries(h, at + 1, EscapedLessThan, Collecting(DoubleEscapeStart, []));
        CollectorReads(h, at + 1, DoubleEscapeStart, []);
        assert [] + Lowered(h[at + 1..e]) == Lowered(h[at + 1..e]);
      } else {
        MachineRetries(h, at + 1, EscapedLessThan, EscapedText);
      }
      if Named(h, at + 1, SCRIPT) {
        ScriptsAgree(h, at + 8, Double(0));
      } else {
        LettersPass(h, at + 1, Escaped(0));
        ScriptsAgree(h, e, Escaped(0));
        MachineAtEnd(h, e, EscapedText);
      }
    }
  }

  /** One `<` in double-escaped script data. */
  lemma {:induction false} DoubleLess(h: seq<byte>, at: nat, s: Script)
    requires at < |h| && h[at] == LT
    requires s.Double? && s.Valid()
    ensures ScriptCloser(h, at, s) == ScriptMachine(h, at, Expand(s))
    decreases |h| - at, 1
  {
    hide ScriptMachine;
    hide Named;
    MachineReads(h, at, Expand(s), DoubleEscapedLess);
    if at + 1 < |h| && h[at + 1] == SLASH {
      MachineReads(h, at + 1, DoubleEscapedLess, Collecting(DoubleEscapeEnd, []));
      var e := Letters(h, at + 2);
      NamedIsCollected(h, at + 2);
      CollectorReads(h, at + 2, DoubleEscapeEnd, []);
      assert [] + Lowered(h[at + 2..e]) == Lowered(h[at + 2..e]);
      if Named(h, at + 2, SCRIPT) {
        ScriptsAgree(h, at + 9, Escaped(0));
      } else {
        SlashIsText(h, at, s, Double(0));
        LettersPass(h, at + 2, Double(0));
        ScriptsAgree(h, e, Double(0));
        MachineAtEnd(h, e, DoubleEscaped);
      }
    } else {
      MachineRetries(h, at + 1, DoubleEscapedLess, DoubleEscaped);
      ScriptsAgree(h, at + 1, Double(0));
    }
  }

  /** Where a script element ends, in terms of the standard's machine. */
  lemma ScriptIsStandard(h: seq<byte>, from: nat)
    requires from <= |h|
    ensures var found := ScriptMachine(h, from, ScriptData);
            && (found.Some? ==> 0 <= found.value && found.value + 2 <= |h|)
            && ScriptEnd(h, from) == if found.None? then |h| else TagEnd(h, found.value + 2)
  {
    hide TagEnd;
    hide ScriptCloser;
    hide ScriptMachine;
    hide Named;
    ScriptsAgree(h, from, Data);
  }
}
