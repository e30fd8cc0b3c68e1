/**
 The value of a refreshing `meta` against the HTML Standard, section 4.2.5.3, "shared declarative refresh
 steps": a machine that reads one byte at a time collects the same URL as the parser that jumps over runs.
 */
module HtmlRefreshStandard {
  import opened Bytes
  import opened HtmlScan
  import opened Links

  /** Where the steps are; a URL collects its text from its first byte, also while it may still be `url=`. */
  datatype RefreshState = Lead | Number | Fraction | Gap | Separated
    | U(t: seq<byte>) | UR(t: seq<byte>) | URL(t: seq<byte>) | AfterEquals
    | Plain(t: seq<byte>) | InQuotes(quote: byte, t: seq<byte>)

  datatype Move = Go(next: RefreshState) | Fail | Done(url: seq<byte>)

  /** The first byte of a URL. */
  function UrlStart(b: byte): RefreshState {
    if b == 85 || b == 117 then U([b]) else if b == SQUOTE || b == DQUOTE then InQuotes(b, []) else Plain([b])
  }

  /** What may follow the time. */
  function AfterTime(b: byte): Move {
    if b == SEMICOLON || b == COMMA then Go(Separated) else if IsSpace(b) then Go(Gap) else Fail
  }

  function RefreshByte(s: RefreshState, b: byte): Move {
    match s
    case Lead => if IsSpace(b) then Go(Lead) else if IsDigit(b) then Go(Number) else if b == DOT then Go(Fraction) else Fail
    case Number => if IsDigit(b) then Go(Number) else if b == DOT then Go(Fraction) else AfterTime(b)
    case Fraction => if IsDigit(b) || b == DOT then Go(Fraction) else AfterTime(b)
    case Gap => if IsSpace(b) then Go(Gap) else if b == SEMICOLON || b == COMMA then Go(Separated) else Go(UrlStart(b))
    case Separated => if IsSpace(b) then Go(Separated) else Go(UrlStart(b))
    case U(t) => if b == 82 || b == 114 then Go(UR(t + [b])) else Go(Plain(t + [b]))
    case UR(t) => if b == 76 || b == 108 then Go(URL(t + [b])) else Go(Plain(t + [b]))
    case URL(t) => if IsSpace(b) then Go(URL(t + [b])) else if b == EQUALS then Go(AfterEquals) else Go(Plain(t + [b]))
    case AfterEquals => if IsSpace(b) then Go(AfterEquals) else if b == SQUOTE || b == DQUOTE then Go(InQuotes(b, [])) else Go(Plain([b]))
    case Plain(t) => Go(Plain(t + [b]))
    case InQuotes(q, t) => if b == q then Done(t) else Go(InQuotes(q, t + [b]))
  }

  /** The URL there is when the value ends. */
  function AtEnd(s: RefreshState): Option<seq<byte>> {
    match s
    case U(t) => Some(t)
    case UR(t) => Some(t)
    case URL(t) => Some(t)
    case AfterEquals => Some([])
    case Plain(t) => Some(t)
    case InQuotes(_, t) => Some(t)
    case _ => None
  }

  function Machine(c: seq<byte>, at: nat, s: RefreshState): Option<seq<byte>>
    requires at <= |c|
    decreases |c| - at
  {
    if at == |c| then AtEnd(s)
    else match RefreshByte(s, c[at])
         case Go(next) => Machine(c, at + 1, next)
         case Fail => None
         case Done(url) => Some(url)
  }

  lemma Reads(c: seq<byte>, at: nat, s: RefreshState, next: RefreshState)
    requires at < |c| && RefreshByte(s, c[at]) == Go(next)
    ensures Machine(c, at, s) == Machine(c, at + 1, next)
  {}

  // ----- runs

  /** The states that stay where they are over a run. */
  predicate Stays(s: RefreshState, accept: Accept) {
    || (accept == Space && (s.Lead? || s.Gap? || s.Separated? || s.AfterEquals?))
    || (accept == Digit && s.Number?)
    || (accept == DigitOrDot && s.Fraction?)
  }

  lemma {:induction false} StayRun(c: seq<byte>, at: nat, s: RefreshState, accept: Accept)
    requires at <= |c| && Stays(s, accept)
    ensures Machine(c, at, s) == Machine(c, Run(c, at, accept), s)
    decreases |c| - at
  {
    hide Machine;
    hide AllAccepted;
    if at < |c| && accept.Has(c[at]) {
      Reads(c, at, s, s);
      StayRun(c, at + 1, s, accept);
    }
  }

  lemma {:induction false} UrlRun(c: seq<byte>, lo: nat, at: nat)
    requires lo <= at <= |c|
    ensures Machine(c, at, URL(c[lo..at])) == Machine(c, Run(c, at, Space), URL(c[lo..Run(c, at, Space)]))
    decreases |c| - at
  {
    hide Machine;
    hide AllAccepted;
    if at < |c| && Space.Has(c[at]) {
      assert c[lo..at] + [c[at]] == c[lo..at + 1];
      Reads(c, at, URL(c[lo..at]), URL(c[lo..at + 1]));
      UrlRun(c, lo, at + 1);
    }
  }

  lemma {:induction false} PlainRun(c: seq<byte>, lo: nat, at: nat)
    requires lo <= at <= |c|
    ensures Machine(c, at, Plain(c[lo..at])) == Some(c[lo..])
    decreases |c| - at
  {
    hide Machine;
    if at == |c| {
      PlainEnds(c, c[lo..at]);
      assert c[lo..|c|] == c[lo..];
    } else {
      assert c[lo..at] + [c[at]] == c[lo..at + 1];
      Reads(c, at, Plain(c[lo..at]), Plain(c[lo..at + 1]));
      PlainRun(c, lo, at + 1);
    }
  }

  lemma PlainEnds(c: seq<byte>, t: seq<byte>)
    ensures Machine(c, |c|, Plain(t)) == Some(t)
  {}

  lemma {:induction false} QuotedRun(c: seq<byte>, lo: nat, at: nat, q: byte)
    requires lo <= at <= |c|
    ensures Machine(c, at, InQuotes(q, c[lo..at])) == Some(c[lo..Run(c, at, Not(q))])
    decreases |c| - at
  {
    hide Machine;
    hide AllAccepted;
    if at < |c| && c[at] != q {
      assert c[lo..at] + [c[at]] == c[lo..at + 1];
      Reads(c, at, InQuotes(q, c[lo..at]), InQuotes(q, c[lo..at + 1]));
      QuotedRun(c, lo, at + 1, q);
    } else {
      QuotedEnds(c, at, q, c[lo..at]);
    }
  }

  lemma QuotedEnds(c: seq<byte>, at: nat, q: byte, t: seq<byte>)
    requires at <= |c| && (at < |c| ==> c[at] == q)
    ensures Machine(c, at, InQuotes(q, t)) == Some(t)
  {}

  // ----- the URL

  function Text(c: seq<byte>, s: Span): seq<byte>
    requires InBounds(c, s)
  {
    c[s.lo..s.hi]
  }

  /** A byte that opens no quotes starts a URL that runs to the end. */
  lemma PlainFrom(c: seq<byte>, lo: nat, at: nat)
    requires lo < at <= |c|
    ensures Machine(c, at, Plain(c[lo..at])) == Some(Text(c, Span(lo, |c|)))
  {
    hide Machine;
    PlainRun(c, lo, at);
    assert c[lo..|c|] == c[lo..];
  }

  lemma QuotesFrom(c: seq<byte>, at: nat)
    requires at < |c| && (c[at] == SQUOTE || c[at] == DQUOTE)
    ensures Machine(c, at + 1, InQuotes(c[at], [])) == Some(Text(c, Quoted(c, at)))
  {
    hide Machine;
    hide Run;
    assert c[at + 1..at + 1] == [];
    QuotedRun(c, at + 1, at + 1, c[at]);
  }

  /** After the equals sign. */
  lemma EqualsAgrees(c: seq<byte>, at: nat)
    requires at <= |c|
    ensures Machine(c, at, AfterEquals) == Some(Text(c, Quoted(c, Run(c, at, Space))))
  {
    hide Machine;
    hide Run;
    hide AllAccepted;
    hide Quoted;
    var start := Run(c, at, Space);
    StayRun(c, at, AfterEquals, Space);
    UnquotedIs(c, start);
    if start == |c| {
      NothingAfterEquals(c);
    } else {
      NotSpaceAt(c, at);
      if c[start] == SQUOTE || c[start] == DQUOTE {
        Reads(c, start, AfterEquals, InQuotes(c[start], []));
        QuotesFrom(c, start);
      } else {
        assert c[start..start + 1] == [c[start]];
        Reads(c, start, AfterEquals, Plain(c[start..start + 1]));
        PlainFrom(c, start, start + 1);
      }
    }
  }

  lemma UnquotedIs(c: seq<byte>, at: nat)
    requires at <= |c|
    ensures !Is(c, at, [SQUOTE, DQUOTE]) ==> Quoted(c, at) == Span(at, |c|)
    ensures at == |c| ==> Text(c, Quoted(c, at)) == []
  {
    hide Run;
  }

  lemma NothingAfterEquals(c: seq<byte>)
    ensures Machine(c, |c|, AfterEquals) == Some([])
  {}

  lemma NotSpaceAt(c: seq<byte>, at: nat)
    requires at <= |c|
    ensures Run(c, at, Space) < |c| ==> !IsSpace(c[Run(c, at, Space)])
  {
    hide Run;
  }

  /** After `url`: an equals sign may follow. */
  lemma UrlAgrees(c: seq<byte>, lo: nat, at: nat)
    requires lo < at <= |c|
    ensures var equals := Run(c, at, Space);
            Machine(c, at, URL(c[lo..at]))
            == Some(Text(c, if Is(c, equals, [EQUALS]) then Quoted(c, Run(c, equals + 1, Space)) else Span(lo, |c|)))
  {
    hide Machine;
    hide Run;
    hide AllAccepted;
    hide Quoted;
    var equals := Run(c, at, Space);
    UrlRun(c, lo, at);
    if equals == |c| {
      UrlEnds(c, c[lo..equals]);
    } else {
      NotSpaceAt(c, at);
      if c[equals] == EQUALS {
        Reads(c, equals, URL(c[lo..equals]), AfterEquals);
        EqualsAgrees(c, equals + 1);
      } else {
        assert c[lo..equals] + [c[equals]] == c[lo..equals + 1];
        Reads(c, equals, URL(c[lo..equals]), Plain(c[lo..equals + 1]));
        PlainFrom(c, lo, equals + 1);
      }
    }
  }

  lemma UrlEnds(c: seq<byte>, t: seq<byte>)
    ensures Machine(c, |c|, URL(t)) == Some(t) && Machine(c, |c|, U(t)) == Some(t) && Machine(c, |c|, UR(t)) == Some(t)
  {}

  lemma SecondAgrees(c: seq<byte>, start: nat)
    requires start + 1 < |c| && (c[start] == 85 || c[start] == 117) && (c[start + 1] == 82 || c[start + 1] == 114)
    ensures Machine(c, start + 2, UR(c[start..start + 2])) == Some(Text(c, RefreshUrl(c, start)))
  {
    hide Machine;
    hide Run;
    hide Quoted;
    var at := start + 2;
    if at == |c| {
      UrlEnds(c, c[start..at]);
    } else {
      assert c[start..at] + [c[at]] == c[start..at + 1];
      if c[at] == 76 || c[at] == 108 {
        Reads(c, at, UR(c[start..at]), URL(c[start..at + 1]));
        UrlAgrees(c, start, at + 1);
      } else {
        Reads(c, at, UR(c[start..at]), Plain(c[start..at + 1]));
        PlainFrom(c, start, at + 1);
      }
    }
  }

  lemma FirstAgrees(c: seq<byte>, start: nat)
    requires start < |c| && (c[start] == 85 || c[start] == 117)
    ensures Machine(c, start + 1, U(c[start..start + 1])) == Some(Text(c, RefreshUrl(c, start)))
  {
    hide Machine;
    hide Run;
    hide Quoted;
    var at := start + 1;
    if at == |c| {
      UrlEnds(c, c[start..at]);
    } else {
      assert c[start..at] + [c[at]] == c[start..at + 1];
      if c[at] == 82 || c[at] == 114 {
        Reads(c, at, U(c[start..at]), UR(c[start..at + 1]));
        SecondAgrees(c, start);
      } else {
        Reads(c, at, U(c[start..at]), Plain(c[start..at + 1]));
        PlainFrom(c, start, at + 1);
      }
    }
  }

  /** The URL that starts at `start`, whichever way it is written. */
  lemma StartAgrees(c: seq<byte>, start: nat)
    requires start < |c|
    ensures Machine(c, start + 1, UrlStart(c[start])) == Some(Text(c, RefreshUrl(c, start)))
  {
    hide Machine;
    hide Run;
    assert c[start..start + 1] == [c[start]];
    if c[start] == 85 || c[start] == 117 {
      FirstAgrees(c, start);
    } else if c[start] == SQUOTE || c[start] == DQUOTE {
      QuotesFrom(c, start);
    } else {
      PlainFrom(c, start, start + 1);
    }
  }

  // ----- the time before it

  /** What is left once the time and its separator are over. */
  function FromUrl(c: seq<byte>, start: nat): Option<seq<byte>>
    requires start <= |c|
  {
    if start == |c| then None else Some(Text(c, RefreshUrl(c, start)))
  }

  lemma SeparatedAgrees(c: seq<byte>, at: nat)
    requires at <= |c|
    ensures Machine(c, at, Separated) == FromUrl(c, Run(c, at, Space))
  {
    hide Machine;
    hide Run;
    hide RefreshUrl;
    var start := Run(c, at, Space);
    StayRun(c, at, Separated, Space);
    if start == |c| {
      NothingYet(c);
    } else {
      NotSpaceAt(c, at);
      Reads(c, start, Separated, UrlStart(c[start]));
      StartAgrees(c, start);
    }
  }

  lemma NothingYet(c: seq<byte>)
    ensures Machine(c, |c|, Separated) == None && Machine(c, |c|, Gap) == None
    ensures Machine(c, |c|, Lead) == None && Machine(c, |c|, Number) == None && Machine(c, |c|, Fraction) == None
  {}

  /** After the time: space, at most one separator, space. */
  lemma GapAgrees(c: seq<byte>, at: nat)
    requires at <= |c|
    ensures var gap := Run(c, at, Space);
            var next := if Is(c, gap, [SEMICOLON, COMMA]) then gap + 1 else gap;
            next <= |c| && Machine(c, at, Gap) == FromUrl(c, Run(c, next, Space))
  {
    hide Machine;
    hide Run;
    hide RefreshUrl;
    var gap := Run(c, at, Space);
    StayRun(c, at, Gap, Space);
    if gap == |c| {
      NothingYet(c);
      NoSpaceRun(c, gap);
    } else {
      NotSpaceAt(c, at);
      if c[gap] == SEMICOLON || c[gap] == COMMA {
        Reads(c, gap, Gap, Separated);
        SeparatedAgrees(c, gap + 1);
      } else {
        NoSpaceRun(c, gap);
        Reads(c, gap, Gap, UrlStart(c[gap]));
        StartAgrees(c, gap);
      }
    }
  }

  lemma NoSpaceRun(c: seq<byte>, at: nat)
    requires at <= |c| && (at < |c| ==> !IsSpace(c[at]))
    ensures Run(c, at, Space) == at
  {}

  /** The time is over at `at`. */
  lemma TimeEnds(c: seq<byte>, at: nat, s: RefreshState)
    requires at <= |c| && (s == Number || s == Fraction) && (at < |c| ==> !IsDigit(c[at]) && c[at] != DOT)
    ensures Machine(c, at, s)
         == if at == |c| then None
            else if !Is(c, at, [SEMICOLON, COMMA, TAB, LF, FF, CR, SPACE]) then None
            else Machine(c, at, Gap)
  {
    hide Machine;
    if at == |c| {
      NothingYet(c);
    } else if c[at] == SEMICOLON || c[at] == COMMA {
      Reads(c, at, s, Separated);
      Reads(c, at, Gap, Separated);
    } else if IsSpace(c[at]) {
      Reads(c, at, s, Gap);
      Reads(c, at, Gap, Gap);
    } else {
      Fails(c, at, s);
    }
  }

  lemma Fails(c: seq<byte>, at: nat, s: RefreshState)
    requires at < |c| && RefreshByte(s, c[at]) == Fail
    ensures Machine(c, at, s) == None
  {}

  /** From the end of the digits: the machine is in the number or the fraction, as a dot follows or not. */
  lemma DigitsAgree(c: seq<byte>, digits: nat)
    requires digits <= |c| && (digits < |c| ==> !IsDigit(c[digits]))
    ensures var at := Run(c, digits, DigitOrDot);
            && Machine(c, digits, Number) == Machine(c, at, if at == digits then Number else Fraction)
            && (Is(c, digits, [DOT]) ==> at > digits && Machine(c, digits, Lead) == Machine(c, at, Fraction))
            && (at < |c| ==> !IsDigit(c[at]) && c[at] != DOT)
  {
    hide Machine;
    hide AllAccepted;
    if digits < |c| && c[digits] == DOT {
      Reads(c, digits, Number, Fraction);
      Reads(c, digits, Lead, Fraction);
      StayRun(c, digits + 1, Fraction, DigitOrDot);
    }
  }

  lemma LeadAgrees(c: seq<byte>)
    ensures var time := Run(c, 0, Space);
            var digits := Run(c, time, Digit);
            && Machine(c, 0, Lead) == Machine(c, time, Lead)
            && (digits > time ==> Machine(c, time, Lead) == Machine(c, digits, Number))
            && (digits < |c| ==> !IsDigit(c[digits]))
            && (digits == time && !Is(c, time, [DOT]) ==> Machine(c, 0, Lead) == None)
  {
    hide Machine;
    hide AllAccepted;
    var time := Run(c, 0, Space);
    var digits := Run(c, time, Digit);
    StayRun(c, 0, Lead, Space);
    NotSpaceAt(c, 0);
    if digits > time {
      Reads(c, time, Lead, Number);
      StayRun(c, time + 1, Number, Digit);
    } else if time == |c| {
      NothingYet(c);
    } else if c[time] != DOT {
      Fails(c, time, Lead);
    }
  }

  /** For every value, the parser of the portal finds the URL that the standard's steps find. */
  lemma RefreshIsStandard(c: seq<byte>)
    ensures Refresh(c).None? ==> Machine(c, 0, Lead) == None
    ensures Refresh(c).Some? ==> Machine(c, 0, Lead) == Some(Text(c, Refresh(c).value))
  {
    hide Machine;
    hide Run;
    hide AllAccepted;
    hide RefreshUrl;
    var time := Run(c, 0, Space);
    var digits := Run(c, time, Digit);
    LeadAgrees(c);
    if !(digits == time && !Is(c, time, [DOT])) {
      var at := Run(c, digits, DigitOrDot);
      DigitsAgree(c, digits);
      TimeEnds(c, at, if at == digits then Number else Fraction);
      TimeEnds(c, at, Fraction);
      GapAgrees(c, at);
    }
  }
}
