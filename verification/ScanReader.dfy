/**
 The secret scanner of one object (`read_chunk` and `scan_reader` in `review.rs`): a window of 64 KiB
 slides over a stream of any length with 512 bytes carried over, rules report match positions in the
 window, and each (rule, position) is reported once. A rule is any function from a window to match
 positions; a reader may return short reads and may fail at any read.
 */
module ScanReader {
  import opened Bytes

  const CHUNK := 65536
  const CARRY := 512
  const FINDINGS_LIMIT := 65536
  const U64: nat := 0x1_0000_0000_0000_0000

  type Name = seq<byte>

  datatype Rule = Rule(name: Name, find: seq<byte> -> seq<nat>)

  datatype Finding = Finding(oid: Name, rule: Name, offset: nat)

  // ----- the windows of a stream

  /** Where window `k` of a stream of `n` bytes starts and ends. */
  function Start(k: nat): nat {
    if k == 0 then 0 else k * CHUNK - CARRY
  }

  function Stop(n: nat, k: nat): nat {
    if (k + 1) * CHUNK <= n then (k + 1) * CHUNK else n
  }

  /** How many windows are scanned: none for the empty stream. */
  function Count(n: nat): nat {
    (n + CHUNK - 1) / CHUNK
  }

  /**
   Every span of at most 513 bytes lies wholly inside one window: the last one whose new bytes the
   span reaches.
   */
  lemma SpansAreSeen(n: nat, a: nat, b: nat)
    requires a < b <= n && b - a <= CARRY + 1
    ensures var k := (b - 1) / CHUNK;
            k < Count(n) && Start(k) <= a && b <= Stop(n, k)
  {
    var k := (b - 1) / CHUNK;
    assert k * CHUNK <= b - 1 < (k + 1) * CHUNK;
  }

  /** The bound is exact: a longer span can fall between two windows. */
  lemma LongerSpansAreMissed()
    ensures var n, a, b := 2 * CHUNK, CHUNK - CARRY - 1, CHUNK + 1;
            b - a == CARRY + 2 && forall k: nat :: k < Count(n) ==> !(Start(k) <= a && b <= Stop(n, k))
  {
    assert Count(2 * CHUNK) == 2;
    forall k: nat | k < 2
      ensures !(Start(k) <= CHUNK - CARRY - 1 && CHUNK + 1 <= Stop(2 * CHUNK, k))
    {
      assert k == 0 || k == 1;
    }
  }

  // ----- what a scan reports

  /** The matches of rules from `r` on in one window, with stream positions. */
  function WindowMatches(rules: seq<Rule>, r: nat, window: seq<byte>, offset: nat): seq<(Name, nat)>
    requires r <= |rules|
    decreases |rules| - r
  {
    if r == |rules| then []
    else Shifted(rules[r].name, rules[r].find(window), offset) + WindowMatches(rules, r + 1, window, offset)
  }

  function Shifted(name: Name, starts: seq<nat>, offset: nat): (m: seq<(Name, nat)>)
    ensures |m| == |starts| && forall i :: 0 <= i < |starts| ==> m[i] == (name, offset + starts[i])
  {
    if starts == [] then [] else [(name, offset + starts[0])] + Shifted(name, starts[1..], offset)
  }

  function WindowOf(stream: seq<byte>, k: nat): seq<byte>
    requires k < Count(|stream|)
  {
    stream[Start(k)..Stop(|stream|, k)]
  }

  /** All matches in the first `k` windows, in the order they are met. */
  function Matches(rules: seq<Rule>, stream: seq<byte>, k: nat): seq<(Name, nat)>
    requires k <= Count(|stream|)
  {
    if k == 0 then []
    else Matches(rules, stream, k - 1) + WindowMatches(rules, 0, WindowOf(stream, k - 1), Start(k - 1))
  }

  /** First occurrences, in order. */
  function Firsts(m: seq<(Name, nat)>): seq<(Name, nat)> {
    if m == [] then []
    else
      var init, last := Firsts(m[..|m| - 1]), m[|m| - 1];
      if last in init then init else init + [last]
  }

  /** Each match is reported, and no (rule, position) twice. */
  lemma {:induction false} FirstsAreDistinct(m: seq<(Name, nat)>)
    ensures forall x :: x in Firsts(m) <==> x in m
    ensures forall i, j :: 0 <= i < j < |Firsts(m)| ==> Firsts(m)[i] != Firsts(m)[j]
  {
    if m != [] {
      FirstsAreDistinct(m[..|m| - 1]);
      var last := m[|m| - 1];
      assert m == m[..|m| - 1] + [last];
    }
  }

  /** A rule that reports every occurrence of `pattern` in a window. */
  ghost predicate Finds(rule: Rule, pattern: seq<byte>) {
    forall window: seq<byte>, at: nat :: at + |pattern| <= |window| && window[at..at + |pattern|] == pattern ==>
                                           at in rule.find(window)
  }

  /** An occurrence of at most 513 bytes anywhere in the stream is reported, at its place in the stream. */
  lemma OccurrencesAreReported(rules: seq<Rule>, r: nat, pattern: seq<byte>, stream: seq<byte>, at: nat)
    requires r < |rules| && 0 < |pattern| <= CARRY + 1 && Finds(rules[r], pattern)
    requires at + |pattern| <= |stream| && stream[at..at + |pattern|] == pattern
    ensures (rules[r].name, at) in Firsts(Matches(rules, stream, Count(|stream|)))
  {
    hide Firsts;
    hide Finds;
    hide Matches;
    hide WindowMatches;
    hide WindowOf;
    hide Count;
    hide Start;
    hide Stop;
    var b := at + |pattern|;
    SpansAreSeen(|stream|, at, b);
    var k := (b - 1) / CHUNK;
    OccursInWindow(rules[r], pattern, stream, at, k);
    RuleMatches(rules, r, 0, WindowOf(stream, k), Start(k), at - Start(k));
    MatchesHold(rules, stream, k, Count(|stream|), (rules[r].name, at));
    FirstsAreDistinct(Matches(rules, stream, Count(|stream|)));
  }

  lemma OccursInWindow(rule: Rule, pattern: seq<byte>, stream: seq<byte>, at: nat, k: nat)
    requires Finds(rule, pattern) && k < Count(|stream|)
    requires Start(k) <= at && at + |pattern| <= Stop(|stream|, k)
    requires stream[at..at + |pattern|] == pattern
    ensures at - Start(k) in rule.find(WindowOf(stream, k))
  {
    hide Count;
    var window, s := WindowOf(stream, k), at - Start(k);
    assert window[s..s + |pattern|] == pattern;
  }

  lemma {:induction false} RuleMatches(rules: seq<Rule>, r: nat, from: nat, window: seq<byte>, offset: nat, s: nat)
    requires from <= r < |rules| && s in rules[r].find(window)
    ensures (rules[r].name, offset + s) in WindowMatches(rules, from, window, offset)
    decreases r - from
  {
    var here := Shifted(rules[from].name, rules[from].find(window), offset);
    if from == r {
      var i :| 0 <= i < |rules[r].find(window)| && rules[r].find(window)[i] == s;
      assert here[i] == (rules[r].name, offset + s);
    } else {
      RuleMatches(rules, r, from + 1, window, offset, s);
    }
  }

  lemma {:induction false} MatchesHold(rules: seq<Rule>, stream: seq<byte>, k: nat, n: nat, x: (Name, nat))
    requires k < n <= Count(|stream|)
    requires x in WindowMatches(rules, 0, WindowOf(stream, k), Start(k))
    ensures x in Matches(rules, stream, n)
    decreases n
  {
    hide WindowMatches;
    hide WindowOf;
    if k + 1 < n {
      MatchesHold(rules, stream, k, n - 1, x);
    }
  }

  function Findings(oid: Name, m: seq<(Name, nat)>): (r: seq<Finding>)
    ensures |r| == |m| && forall i :: 0 <= i < |m| ==> r[i] == Finding(oid, m[i].0, m[i].1)
  {
    if m == [] then [] else Findings(oid, m[..|m| - 1]) + [Finding(oid, m[|m| - 1].0, m[|m| - 1].1)]
  }

  // ----- the scanner

  class Reader {
    const data: seq<byte>
    var pos: nat

    constructor (data: seq<byte>)
      ensures this.data == data && pos == 0
    {
      this.data := data;
      pos := 0;
    }

    /** `read`: some of what is left, nothing only at the end, or an error. */
    method Read(room: nat) returns (ok: bool, count: nat)
      requires pos <= |data|
      modifies this
      ensures ok ==> old(pos) <= pos <= |data| && count == pos - old(pos) <= room
      ensures ok && count == 0 ==> room == 0 || pos == |data|
      ensures !ok ==> pos == old(pos)
    {
      ok, count := *, 0;
      if ok && room > 0 && pos < |data| {
        count :| 1 <= count <= room && count <= |data| - pos;
        pos := pos + count;
      }
    }
  }

  lemma Lengthened(data: seq<byte>, head: seq<byte>, start: nat, from: nat, received: nat)
    requires start <= from <= from + received <= |data|
    ensures head + data[start..from] + data[from..from + received] == head + data[start..from + received]
  {}

  /** `read_chunk`: fills the buffer from `at` to `end` unless the stream ends first. */
  method ReadChunk(reader: Reader, buffer: array<byte>, at: nat, end: nat) returns (ok: bool, count: nat)
    requires at <= end <= buffer.Length && reader.pos <= |reader.data|
    modifies reader, buffer
    ensures reader.pos <= |reader.data|
    ensures ok ==> old(reader.pos) <= reader.pos && count == reader.pos - old(reader.pos) <= end - at
    ensures ok ==> count == end - at || reader.pos == |reader.data|
    ensures ok ==> buffer[..at + count] == old(buffer[..at]) + reader.data[old(reader.pos)..reader.pos]
  {
    count := 0;
    ok := true;
    while count < end - at
      invariant count <= end - at
      invariant reader.pos <= |reader.data| && count == reader.pos - old(reader.pos)
      invariant buffer[..at + count] == old(buffer[..at]) + reader.data[old(reader.pos)..reader.pos]
      decreases end - at - count
    {
      var from := reader.pos;
      var good, received := reader.Read(end - at - count);
      if !good {
        return false, 0;
      }
      ghost var before := buffer[..at + count];
      forall i | 0 <= i < received {
        buffer[at + count + i] := reader.data[from + i];
      }
      if received == 0 {
        assert buffer[..at + count] == before;
        break;
      }
      assert buffer[..at + count + received] == before + reader.data[from..from + received];
      Lengthened(reader.data, old(buffer[..at]), old(reader.pos), from, received);
      count := count + received;
    }
  }

  lemma FirstsAppend(m: seq<(Name, nat)>, x: (Name, nat))
    ensures Firsts(m + [x]) == if x in m then Firsts(m) else Firsts(m) + [x]
  {
    FirstsAreDistinct(m);
    assert (m + [x])[..|m|] == m;
  }

  /** What was reported stays reported as more is scanned. */
  lemma {:induction false} FirstsGrow(a: seq<(Name, nat)>, b: seq<(Name, nat)>)
    ensures Firsts(a) <= Firsts(a + b)
    decreases |b|
  {
    if b == [] {
      assert a + b == a;
    } else {
      var init, x := b[..|b| - 1], b[|b| - 1];
      assert a + b == (a + init) + [x];
      FirstsGrow(a, init);
      FirstsAppend(a + init, x);
    }
  }

  class Report {
    var bytes: nat
    var findings: seq<Finding>

    constructor ()
      ensures bytes == 0 && findings == []
    {
      bytes, findings := 0, [];
    }
  }

  class Counter {
    var n: nat

    constructor ()
      ensures n == 0
    {
      n := 0;
    }
  }

  /** The report and the counter after the matches `m`, from what they were before the scan. */
  ghost predicate Reported(report: Report, counter: Counter, oid: Name, m: seq<(Name, nat)>,
                           before: seq<Finding>, counted: nat)
    reads report`findings, counter
  {
    && report.findings == before + Findings(oid, Firsts(m))
    && counter.n == counted + |Firsts(m)|
    && (Firsts(m) == [] || counter.n <= FINDINGS_LIMIT)
  }

  /** The set of matches already met. */
  ghost predicate Known(found: set<(Name, nat)>, m: seq<(Name, nat)>) {
    forall y :: y in found <==> y in m
  }

  /** More findings than the limit allows, counting those before the scan. */
  ghost predicate TooMany(m: seq<(Name, nat)>, counted: nat) {
    Firsts(m) != [] && counted + |Firsts(m)| > FINDINGS_LIMIT
  }

  lemma TooManyGrows(a: seq<(Name, nat)>, b: seq<(Name, nat)>, counted: nat)
    requires TooMany(a, counted)
    ensures TooMany(a + b, counted)
  {
    FirstsGrow(a, b);
  }

  /** One match: already found, one more finding, or one too many. */
  method ScanMatch(oid: Name, x: (Name, nat), report: Report, counter: Counter, found: set<(Name, nat)>,
                   ghost m: seq<(Name, nat)>, ghost before: seq<Finding>, ghost counted: nat)
    returns (ok: bool, now: set<(Name, nat)>)
    requires Known(found, m)
    requires Reported(report, counter, oid, m, before, counted)
    modifies report`findings, counter
    ensures ok ==> Reported(report, counter, oid, m + [x], before, counted)
    ensures ok ==> Known(now, m + [x])
    ensures !ok ==> TooMany(m + [x], counted)
  {
    hide Firsts;
    FirstsAppend(m, x);
    if x in found {
      return true, found;
    }
    now := found + {x};
    var was := counter.n;
    counter.n := counter.n + 1;
    if was >= FINDINGS_LIMIT {
      return false, now;
    }
    assert (Firsts(m) + [x])[..|Firsts(m)|] == Firsts(m);
    report.findings := report.findings + [Finding(oid, x.0, x.1)];
    ok := true;
  }

  /** All matches of one rule. */
  method ScanRule(name: Name, starts: seq<nat>, offset: nat, oid: Name, report: Report, counter: Counter,
                  found: set<(Name, nat)>,
                  ghost m: seq<(Name, nat)>, ghost before: seq<Finding>, ghost counted: nat)
    returns (ok: bool, now: set<(Name, nat)>)
    requires Known(found, m)
    requires Reported(report, counter, oid, m, before, counted)
    modifies report`findings, counter
    ensures ok ==> Reported(report, counter, oid, m + Shifted(name, starts, offset), before, counted)
    ensures ok ==> Known(now, m + Shifted(name, starts, offset))
    ensures !ok ==> TooMany(m + Shifted(name, starts, offset), counted)
  {
    hide TooMany;
    hide Reported;
    hide Known;
    now := found;
    ghost var here := Shifted(name, starts, offset);
    assert m + here[..0] == m;
    for i := 0 to |starts|
      invariant Known(now, m + here[..i])
      invariant Reported(report, counter, oid, m + here[..i], before, counted)
    {
      assert m + here[..i + 1] == m + here[..i] + [here[i]];
      ok, now := ScanMatch(oid, (name, offset + starts[i]), report, counter, now, m + here[..i], before, counted);
      if !ok {
        assert m + here[..i + 1] + here[i + 1..] == m + here;
        TooManyGrows(m + here[..i + 1], here[i + 1..], counted);
        return;
      }
    }
    assert here[..|starts|] == here;
    ok := true;
  }

  /** All rules over one window. */
  method ScanWindow(rules: seq<Rule>, window: seq<byte>, offset: nat, oid: Name, report: Report, counter: Counter,
                    found: set<(Name, nat)>,
                    ghost m: seq<(Name, nat)>, ghost before: seq<Finding>, ghost counted: nat)
    returns (ok: bool, now: set<(Name, nat)>)
    requires Known(found, m)
    requires Reported(report, counter, oid, m, before, counted)
    modifies report`findings, counter
    ensures ok ==> Reported(report, counter, oid, m + WindowMatches(rules, 0, window, offset), before, counted)
    ensures ok ==> Known(now, m + WindowMatches(rules, 0, window, offset))
    ensures !ok ==> TooMany(m + WindowMatches(rules, 0, window, offset), counted)
  {
    hide TooMany;
    hide Reported;
    hide Known;
    hide Shifted;
    now := found;
    ghost var all := m + WindowMatches(rules, 0, window, offset);
    ghost var done := m;
    for r := 0 to |rules|
      invariant done + WindowMatches(rules, r, window, offset) == all
      invariant Known(now, done)
      invariant Reported(report, counter, oid, done, before, counted)
    {
      var rule := rules[r];
      var starts := rule.find(window);
      ghost var here := Shifted(rule.name, starts, offset);
      ghost var rest := WindowMatches(rules, r + 1, window, offset);
      assert done + (here + rest) == done + here + rest;
      ok, now := ScanRule(rule.name, starts, offset, oid, report, counter, now, done, before, counted);
      if !ok {
        TooManyGrows(done + here, rest, counted);
        return;
      }
      done := done + here;
    }
    assert done + [] == done;
    ok := true;
  }

  datatype Outcome = Scanned | ReadFailed | LimitExceeded | ByteOverflow

  /** `scan_reader`. */
  method ScanStream(reader: Reader, oid: Name, report: Report, rules: seq<Rule>, counter: Counter)
    returns (outcome: Outcome)
    requires reader.pos == 0 && report.bytes < U64
    modifies reader, report, counter
    ensures var m := Matches(rules, reader.data, Count(|reader.data|));
            && (outcome == Scanned ==>
                  && Reported(report, counter, oid, m, old(report.findings), old(counter.n))
                  && report.bytes == old(report.bytes) + |reader.data| < U64)
            && (outcome == LimitExceeded ==> TooMany(m, old(counter.n)))
            && (outcome == ByteOverflow ==> old(report.bytes) + |reader.data| >= U64)
  {
    hide Firsts;
    hide Reported;
    hide TooMany;
    hide WindowMatches;
    hide Known;
    hide Start;
    hide Count;
    hide WindowOf;
    hide Matches;
    hide At;
    var buffer := new byte[CHUNK + CARRY];
    var carry: nat, offset: nat := 0, 0;
    var found: set<(Name, nat)> := {};
    ghost var stream := reader.data;
    ghost var k := 0;
    Begins(report, counter, oid, rules, stream);
    while true
      invariant At(stream, k, reader.pos, offset, carry)
      invariant offset + carry == reader.pos <= |stream| && carry <= CARRY
      invariant buffer[..carry] == stream[offset..reader.pos]
      invariant k <= Count(|stream|) && Known(found, Matches(rules, stream, k))
      invariant Reported(report, counter, oid, Matches(rules, stream, k), old(report.findings), old(counter.n))
      invariant report.bytes == old(report.bytes) + reader.pos < U64
      decreases |stream| - reader.pos
    {
      ghost var from := reader.pos;
      var ok, window := ReadWindow(reader, buffer, carry, offset);
      if !ok {
        return ReadFailed;
      }
      var used := |window|;
      var count := used - carry;
      if count == 0 {
        Ends(stream, k, from, offset, carry);
        break;
      }
      Window(rules, stream, k, from, reader.pos, offset, carry);
      ok, found := ScanWindow(rules, window, offset, oid, report, counter, found,
                              Matches(rules, stream, k), old(report.findings), old(counter.n));
      if !ok {
        LastWindow(rules, stream, k, old(counter.n));
        return LimitExceeded;
      }
      if report.bytes + count >= U64 {
        return ByteOverflow;
      }
      report.bytes := report.bytes + count;
      var retained := SlideBack(buffer, used, window);
      Tail(stream, offset, reader.pos, used - retained);
      offset := offset + (used - retained);
      carry := retained;
      k := k + 1;
    }
    outcome := Scanned;
  }

  lemma Adjoined(stream: seq<byte>, offset: nat, from: nat, to: nat)
    requires offset <= from <= to <= |stream|
    ensures stream[offset..from] + stream[from..to] == stream[offset..to]
  {}

  /** The carried bytes and the chunk read after them. */
  method ReadWindow(reader: Reader, buffer: array<byte>, carry: nat, ghost offset: nat) returns (ok: bool, window: seq<byte>)
    requires reader.pos <= |reader.data| && offset + carry == reader.pos && CHUNK + carry <= buffer.Length
    requires buffer[..carry] == reader.data[offset..reader.pos]
    modifies reader, buffer
    ensures old(reader.pos) <= |reader.data| && reader.pos <= |reader.data|
    ensures ok ==> old(reader.pos) <= reader.pos <= old(reader.pos) + CHUNK
    ensures ok ==> reader.pos == old(reader.pos) + CHUNK || reader.pos == |reader.data|
    ensures ok ==> window == reader.data[offset..reader.pos] && |window| <= buffer.Length && buffer[..|window|] == window
  {
    ghost var from := reader.pos;
    var count;
    ok, count := ReadChunk(reader, buffer, carry, CHUNK + carry);
    window := [];
    if ok {
      window := buffer[..carry + count];
      Adjoined(reader.data, offset, from, reader.pos);
    }
  }

  /** Where the loop stands after `k` windows. */
  ghost predicate At(stream: seq<byte>, k: nat, pos: nat, offset: nat, carry: nat) {
    && pos == (if k * CHUNK <= |stream| then k * CHUNK else |stream|)
    && offset + carry == pos
    && (k * CHUNK <= |stream| ==> offset == Start(k))
  }

  lemma Begins(report: Report, counter: Counter, oid: Name, rules: seq<Rule>, stream: seq<byte>)
    ensures Reported(report, counter, oid, Matches(rules, stream, 0), report.findings, counter.n)
    ensures At(stream, 0, 0, 0, 0) && Known({}, Matches(rules, stream, 0))
  {}

  /** Nothing more to read: every window has been scanned. */
  lemma Ends(stream: seq<byte>, k: nat, pos: nat, offset: nat, carry: nat)
    requires At(stream, k, pos, offset, carry) && pos == |stream| && k <= Count(|stream|)
    ensures k == Count(|stream|)
  {}

  /** One more chunk was read: it completes window `k`, and the next offset is where window `k + 1` starts. */
  lemma Window(rules: seq<Rule>, stream: seq<byte>, k: nat, from: nat, pos: nat, offset: nat, carry: nat)
    requires At(stream, k, from, offset, carry) && carry <= CARRY && from < pos <= |stream|
    requires pos == from + CHUNK || (pos == |stream| && pos < from + CHUNK)
    ensures k < Count(|stream|) && stream[offset..pos] == WindowOf(stream, k) && offset == Start(k)
    ensures Matches(rules, stream, k + 1)
         == Matches(rules, stream, k) + WindowMatches(rules, 0, stream[offset..pos], offset)
    ensures var used := carry + (pos - from);
            var retained := if used < CARRY then used else CARRY;
            At(stream, k + 1, pos, offset + used - retained, retained)
  {}

  lemma LastWindow(rules: seq<Rule>, stream: seq<byte>, k: nat, counted: nat)
    requires k < Count(|stream|)
    requires TooMany(Matches(rules, stream, k + 1), counted)
    ensures TooMany(Matches(rules, stream, Count(|stream|)), counted)
  {
    hide TooMany;
    MatchesGrow(rules, stream, k + 1, Count(|stream|), counted);
  }

  lemma {:induction false} MatchesGrow(rules: seq<Rule>, stream: seq<byte>, k: nat, n: nat, counted: nat)
    requires k <= n <= Count(|stream|)
    requires TooMany(Matches(rules, stream, k), counted)
    ensures TooMany(Matches(rules, stream, n), counted)
    decreases n
  {
    hide TooMany;
    hide WindowMatches;
    hide WindowOf;
    if k < n {
      MatchesGrow(rules, stream, k, n - 1, counted);
      TooManyGrows(Matches(rules, stream, n - 1),
                   WindowMatches(rules, 0, WindowOf(stream, n - 1), Start(n - 1)), counted);
    }
  }

  /** Moves the last bytes of the window to the front of the buffer. */
  method SlideBack(buffer: array<byte>, used: nat, ghost window: seq<byte>) returns (retained: nat)
    requires used <= buffer.Length && buffer[..used] == window
    modifies buffer
    ensures retained == if used < CARRY then used else CARRY
    ensures buffer[..retained] == window[used - retained..]
  {
    retained := if used < CARRY then used else CARRY;
    var from := used - retained;
    assert forall j :: from <= j < used ==> buffer[j] == window[j];
    forall i | 0 <= i < retained {
      buffer[i] := buffer[from + i];
    }
  }

  lemma Tail(stream: seq<byte>, offset: nat, pos: nat, cut: nat)
    requires offset <= pos <= |stream| && cut <= pos - offset
    ensures stream[offset..pos][cut..] == stream[offset + cut..pos]
  {}
}
