/**
 Script envelopes (`envelope.rs`, and `push` and `envelope` in `read-multipart.py`): the canonical Tapscript
 that carries a record, the two readers of it, and the filter that runs before them. Keys and control
 blocks are checked by functions from outside.
 */
module Envelopes {
  import opened Bytes

  const SEGMENT: nat := 520
  const RECORD_BYTES: nat := 262_144
  const MAX_SCRIPT: nat := RECORD_BYTES + 3 * ((RECORD_BYTES + SEGMENT - 1) / SEGMENT) + 42
  const ENDIF: byte := 0x68

  /** OP_CHECKSIG OP_0 OP_IF, then the push of "URMA". */
  const OPENING: seq<byte> := [0xac, 0, 0x63, 4, 85, 82, 77, 65]

  type Key = s: seq<byte> | |s| == 32 witness Zeros(32)

  function One(b: byte): seq<byte> {
    [b]
  }

  /** A two-byte length. */
  function Two(lo: byte, hi: byte): nat {
    var high: nat := hi;
    lo + 256 * high
  }

  // ----- writing

  /** The minimal push of a segment. */
  function Push(b: seq<byte>): (s: seq<byte>)
    requires 1 <= |b| <= SEGMENT
    ensures 1 <= |s| <= |b| + 3
  {
    if |b| == 1 && 1 <= b[0] <= 16 then [0x50 + b[0]]
    else if b == [0x81] then [0x4f]
    else if |b| <= 75 then [|b|] + b
    else if |b| <= 255 then [0x4c, |b|] + b
    else [0x4d, |b| % 256, |b| / 256] + b
  }

  function First(record: seq<byte>): (n: nat)
    ensures n <= |record| && n <= SEGMENT && (record != [] ==> n > 0)
  {
    if |record| < SEGMENT then |record| else SEGMENT
  }

  /** The pushes of a record cut into full segments and a rest. */
  function Pushes(record: seq<byte>): seq<byte> {
    if record == [] then [] else Push(record[..First(record)]) + Pushes(record[First(record)..])
  }

  function Head(author: Key): (s: seq<byte>)
    ensures |s| == 41
  {
    [0x20] + author + OPENING
  }

  function Script(author: Key, record: seq<byte>): seq<byte> {
    Head(author) + (Pushes(record) + [ENDIF])
  }

  /** `record_script`. */
  method RecordScript(record: seq<byte>, author: Key) returns (script: seq<byte>)
    ensures script == Script(author, record)
  {
    hide Push;
    hide Pushes;
    script := Head(author);
    var rest := record;
    PushesNothing();
    while rest != []
      invariant script + Pushes(rest) == Head(author) + Pushes(record)
      decreases |rest|
    {
      PushesUnfold(rest);
      var part := rest[..First(rest)];
      ghost var before := script;
      script := script + Push(part);
      rest := rest[First(rest)..];
      assert before + (Push(part) + Pushes(rest)) == script + Pushes(rest);
    }
    assert script + [] == script;
    script := script + [ENDIF];
    assert Head(author) + Pushes(record) + [ENDIF] == Script(author, record);
  }

  lemma PushesNothing()
    ensures Pushes([]) == []
  {}

  lemma PushesUnfold(record: seq<byte>)
    requires record != []
    ensures Pushes(record) == Push(record[..First(record)]) + Pushes(record[First(record)..])
  {}

  /** The segments of a record: all but the last are full, and together they are the record. */
  predicate Segments(segments: seq<seq<byte>>, record: seq<byte>) {
    && Flat(segments) == record
    && (forall i :: 0 <= i < |segments| ==> 1 <= |segments[i]| <= SEGMENT)
    && (forall i :: 0 <= i < |segments| - 1 ==> |segments[i]| == 520)
  }

  function Flat(parts: seq<seq<byte>>): seq<byte> {
    if parts == [] then [] else parts[0] + Flat(parts[1..])
  }

  function PushEach(segments: seq<seq<byte>>): seq<byte>
    requires forall i :: 0 <= i < |segments| ==> 1 <= |segments[i]| <= SEGMENT
  {
    if segments == [] then [] else Push(segments[0]) + PushEach(segments[1..])
  }

  /** However a record is cut into full segments and a rest, its pushes are those of the segments in order. */
  lemma {:induction false} PushesOfSegments(segments: seq<seq<byte>>, record: seq<byte>)
    requires Segments(segments, record)
    ensures Pushes(record) == PushEach(segments)
    decreases |segments|
  {
    hide Push;
    if segments != [] {
      var first, rest := segments[0], segments[1..];
      assert record == first + Flat(rest);
      FirstSegment(segments, record);
      assert record[..|first|] == first && record[|first|..] == Flat(rest);
      forall i | 0 <= i < |rest| ensures rest[i] == segments[i + 1] {}
      PushesOfSegments(rest, Flat(rest));
    }
  }

  lemma FirstSegment(segments: seq<seq<byte>>, record: seq<byte>)
    requires Segments(segments, record) && segments != []
    ensures First(record) == |segments[0]|
  {
    var first, rest := segments[0], Flat(segments[1..]);
    assert record == first + rest;
    if |segments| == 1 {
      assert rest == [];
    }
  }

  /** Every record has segments. */
  lemma {:induction false} SegmentsExist(record: seq<byte>) returns (segments: seq<seq<byte>>)
    ensures Segments(segments, record)
    decreases |record|
  {
    if record == [] {
      segments := [];
    } else {
      var n := First(record);
      var rest := SegmentsExist(record[n..]);
      segments := [record[..n]] + rest;
      assert segments[1..] == rest;
      assert record == record[..n] + record[n..];
      if rest != [] {
        assert record[n..] == rest[0] + Flat(rest[1..]);
      }
    }
  }

  /** Three bytes of overhead a segment. */
  lemma {:induction false} PushesSize(record: seq<byte>)
    ensures |Pushes(record)| <= |record| + 3 * ((|record| + SEGMENT - 1) / SEGMENT)
    decreases |record|
  {
    hide Push;
    if record != [] {
      PushesSize(record[First(record)..]);
    }
  }

  /** The size of a script, in the bounds that both readers check first. */
  lemma ScriptSize(author: Key, record: seq<byte>)
    ensures 42 <= |Script(author, record)| <= |record| + 3 * ((|record| + SEGMENT - 1) / SEGMENT) + 42
    ensures |record| <= RECORD_BYTES ==> |Script(author, record)| <= MAX_SCRIPT
  {
    hide Pushes;
    PushesSize(record);
  }

  // ----- the script's reader

  /** The segment at the front, and how many bytes it takes. */
  function Segment(s: seq<byte>): (r: Option<(seq<byte>, nat)>)
    requires s != []
    ensures r.Some? ==> 0 < r.value.1 <= |s| && 1 <= |r.value.0| <= SEGMENT
  {
    var op := s[0];
    if 1 <= op <= 75 then
      if 1 + op <= |s| then Some((s[1..1 + op], 1 + op)) else None
    else if op == 0x4c then
      if |s| < 2 then None
      else
        var n: nat := s[1];
        if 2 + n > |s| || n == 0 then None else Some((s[2..2 + n], 2 + n))
    else if op == 0x4d then
      if |s| < 3 then None
      else
        var n := Two(s[1], s[2]);
        if 3 + n > |s| || n == 0 || n > SEGMENT then None else Some((s[3..3 + n], 3 + n))
    else if 0x51 <= op <= 0x60 then Some((One(op - 0x50), 1))
    else if op == 0x4f then Some((One(0x81), 1))
    else None
  }

  /** The record pushed by `s`, if it is pushes and one end at the very end. */
  function Parse(s: seq<byte>): Option<seq<byte>>
    decreases |s|
  {
    if s == [] then None
    else if s[0] == ENDIF then (if |s| == 1 then Some([]) else None)
    else if Segment(s).None? then None
    else Prepend(Segment(s).value.0, Parse(s[Segment(s).value.1..]))
  }

  function Prepend(b: seq<byte>, r: Option<seq<byte>>): Option<seq<byte>> {
    if r.None? then None else Some(b + r.value)
  }

  predicate Headed(script: seq<byte>) {
    42 <= |script| <= MAX_SCRIPT && script[0] == 0x20 && script[33..41] == OPENING
  }

  function Envelope(script: seq<byte>): Option<(Key, seq<byte>)> {
    if !Headed(script) then None
    else
      var author, record := script[1..33], Parse(script[41..]);
      if record.None? || |record.value| > RECORD_BYTES || Script(author, record.value) != script then None
      else Some((author, record.value))
  }

  /** `envelope`. */
  method ReadEnvelope(script: seq<byte>) returns (r: Option<(Key, seq<byte>)>)
    ensures r == Envelope(script)
  {
    hide Parse;
    hide Segment;
    hide Script;
    hide Prepend;
    if !Headed(script) {
      return None;
    }
    var author, rest, record := script[1..33], script[41..], [];
    PrependNothing(Parse(rest));
    while true
      invariant Prepend(record, Parse(rest)) == Parse(script[41..])
      decreases |rest|
    {
      ParseUnfolds(record, rest);
      if rest == [] {
        return None;
      }
      if rest[0] == ENDIF {
        break;
      }
      var segment := Segment(rest);
      if segment.None? {
        return None;
      }
      record, rest := record + segment.value.0, rest[segment.value.1..];
    }
    if |rest| != 1 || |record| > RECORD_BYTES {
      return None;
    }
    var canonical := RecordScript(record, author);
    r := if script == canonical then Some((author, record)) else None;
  }

  lemma PrependNothing(r: Option<seq<byte>>)
    ensures Prepend([], r) == r
  {
    if r.Some? {
      assert [] + r.value == r.value;
    }
  }

  lemma ParseUnfolds(record: seq<byte>, rest: seq<byte>)
    ensures rest == [] ==> Prepend(record, Parse(rest)) == None
    ensures rest != [] && rest[0] == ENDIF ==> Prepend(record, Parse(rest)) == if |rest| == 1 then Some(record) else None
    ensures rest != [] && rest[0] != ENDIF ==>
              Prepend(record, Parse(rest))
              == if Segment(rest).None? then None else Prepend(record + Segment(rest).value.0, Parse(rest[Segment(rest).value.1..]))
  {
    hide Segment;
    assert record + [] == record;
    if rest != [] && rest[0] != ENDIF && Segment(rest).Some? {
      var b, next := Segment(rest).value.0, Parse(rest[Segment(rest).value.1..]);
      if next.Some? {
        assert record + (b + next.value) == (record + b) + next.value;
      }
    }
  }

  // ----- round trip

  lemma SegmentOfPush(b: seq<byte>, rest: seq<byte>)
    requires 1 <= |b| <= SEGMENT
    ensures (Push(b) + rest)[0] != ENDIF
    ensures Segment(Push(b) + rest) == Some((b, |Push(b)|))
    ensures (Push(b) + rest)[|Push(b)|..] == rest
  {
    var s := Push(b) + rest;
    if |b| == 1 && 1 <= b[0] <= 16 {
      assert b == [b[0]];
    } else if b == [0x81] {
    } else if |b| <= 75 {
      assert s[1..1 + |b|] == b;
    } else if |b| <= 255 {
      assert s[2..2 + |b|] == b;
    } else {
      assert Two(s[1], s[2]) == |b|;
      assert s[3..3 + |b|] == b;
    }
  }

  lemma {:induction false} ParseOfPushes(record: seq<byte>)
    ensures Parse(Pushes(record) + [ENDIF]) == Some(record)
    decreases |record|
  {
    hide Segment;
    hide Push;
    hide Pushes;
    if record == [] {
      PushesNothing();
    } else {
      PushesUnfold(record);
      var b, rest := record[..First(record)], record[First(record)..];
      ParseOfPushes(rest);
      var s, tail := Pushes(record) + [ENDIF], Pushes(rest) + [ENDIF];
      assert s == Push(b) + tail;
      SegmentOfPush(b, tail);
      assert b + rest == record;
    }
  }

  lemma HeadParts(author: Key, tail: seq<byte>)
    ensures var s := Head(author) + tail; s[0] == 0x20 && s[1..33] == author && s[33..41] == OPENING && s[41..] == tail
  {}

  /** The script's reader accepts exactly the canonical scripts, with their contents. */
  lemma EnvelopeIffCanonical(script: seq<byte>, author: Key, record: seq<byte>)
    ensures Envelope(script) == Some((author, record)) <==> |record| <= RECORD_BYTES && script == Script(author, record)
  {
    hide Parse;
    hide Pushes;
    hide Head;
    if |record| <= RECORD_BYTES && script == Script(author, record) {
      HeadParts(author, Pushes(record) + [ENDIF]);
      ParseOfPushes(record);
      ScriptSize(author, record);
    }
  }

  /** A script names one author and one record. */
  lemma ScriptIsUnique(author: Key, record: seq<byte>, author2: Key, record2: seq<byte>)
    requires Script(author, record) == Script(author2, record2)
    ensures author == author2 && record == record2
  {
    hide Parse;
    hide Pushes;
    hide Head;
    HeadParts(author, Pushes(record) + [ENDIF]);
    HeadParts(author2, Pushes(record2) + [ENDIF]);
    ParseOfPushes(record);
    ParseOfPushes(record2);
  }

  // ----- the library's reader

  datatype Instruction = PushBytes(bytes: seq<byte>) | Op(code: byte)

  /** The next instruction of a script, with minimal pushes only, and the script after it. */
  function Next(s: seq<byte>): (r: Option<(Instruction, seq<byte>)>)
    requires s != []
    ensures r.Some? ==> |r.value.1| < |s|
  {
    var op := s[0];
    if op <= 75 then
      if op == 1 && |s| > 1 && (s[1] == 0x81 || 0 < s[1] <= 16) then None
      else if 1 + op > |s| then None
      else Some((PushBytes(s[1..1 + op]), s[1 + op..]))
    else if op == 0x4c then Data(s, 1, 76)
    else if op == 0x4d then Data(s, 2, 0x100)
    else if op == 0x4e then Data(s, 4, 0x1_0000)
    else Some((Op(op), s[1..]))
  }

  function Length(s: seq<byte>): nat {
    if s == [] then 0 else s[0] + 256 * Length(s[1..])
  }

  function Data(s: seq<byte>, width: nat, least: nat): (r: Option<(Instruction, seq<byte>)>)
    requires s != []
    ensures r.Some? ==> |r.value.1| < |s|
  {
    if |s| < 1 + width then None
    else
      var n := Length(s[1..1 + width]);
      if n < least || |s| < 1 + width + n then None
      else Some((PushBytes(s[1 + width..1 + width + n]), s[1 + width + n..]))
  }

  /** What is left after `n` instructions. */
  function Skip(s: seq<byte>, n: nat): Option<seq<byte>> {
    if n == 0 then Some(s)
    else if s == [] || Next(s).None? then None
    else Skip(Next(s).value.1, n - 1)
  }

  /** The bytes that one instruction adds to the record. */
  function Part(i: Instruction): Option<seq<byte>> {
    match i
    case PushBytes(b) => if 1 <= |b| <= SEGMENT then Some(b) else None
    case Op(op) => if 0x51 <= op <= 0x60 then Some(One(op - 0x50)) else if op == 0x4f then Some(One(0x81)) else None
  }

  /** The loop of `extract_envelope`, from the record so far. */
  function Collect(s: seq<byte>, record: seq<byte>): Option<seq<byte>>
    decreases |s|
  {
    if s == [] || Next(s).None? then None
    else
      var (i, rest) := Next(s).value;
      if i == Op(ENDIF) then (if rest == [] then Some(record) else None)
      else if Part(i).None? then None
      else
        var more := record + Part(i).value;
        if |more| > RECORD_BYTES then None else Collect(rest, more)
  }

  /** Keys and control blocks: which keys are points, and the version and internal key of a control block. */
  datatype Curve = Curve(isKey: Key -> bool, control: seq<byte> -> Option<(bool, Key)>)

  /** `extract_envelope`. */
  function Extract(curve: Curve, items: seq<seq<byte>>): Option<(Key, seq<byte>)> {
    if |items| != 3 || |items[0]| != 64 || |items[2]| != 33 then None
    else if !(42 <= |items[1]| <= MAX_SCRIPT) then None
    else if !curve.isKey(items[1][1..33]) then None
    else if curve.control(items[2]) != Some((true, items[1][1..33])) then None
    else if Skip(items[1], 5).None? then None
    else
      var author, record := items[1][1..33], Collect(Skip(items[1], 5).value, []);
      if record.None? || Script(author, record.value) != items[1] then None else Some((author, record.value))
  }

  /** The loop of `extract_envelope`. */
  method CollectLoop(s: seq<byte>) returns (r: Option<seq<byte>>)
    ensures r == Collect(s, [])
  {
    hide Next;
    var rest, record := s, [];
    while true
      invariant Collect(rest, record) == Collect(s, [])
      decreases |rest|
    {
      if rest == [] || Next(rest).None? {
        return None;
      }
      var (i, after) := Next(rest).value;
      if i == Op(ENDIF) {
        return if after == [] then Some(record) else None;
      }
      if Part(i).None? || |record + Part(i).value| > RECORD_BYTES {
        return None;
      }
      record, rest := record + Part(i).value, after;
    }
  }

  lemma NextOfPush(b: seq<byte>, rest: seq<byte>)
    requires 1 <= |b| <= SEGMENT
    ensures Next(Push(b) + rest).Some?
    ensures var (i, after) := Next(Push(b) + rest).value; i != Op(ENDIF) && Part(i) == Some(b) && after == rest
  {
    hide Length;
    var s := Push(b) + rest;
    if |b| == 1 && 1 <= b[0] <= 16 {
      assert b == [b[0]] && s[1..] == rest;
    } else if b == [0x81] {
      assert s[1..] == rest;
    } else if |b| <= 75 {
      assert s[1..1 + |b|] == b && s[1 + |b|..] == rest;
      assert |b| == 1 ==> b == [b[0]];
    } else if |b| <= 255 {
      assert s[1..2] == [|b|];
      ShortLength(|b|, 0);
      assert s[2..2 + |b|] == b && s[2 + |b|..] == rest;
    } else {
      assert s[1..3] == [|b| % 256, |b| / 256];
      ShortLength(|b| % 256, |b| / 256);
      assert s[3..3 + |b|] == b && s[3 + |b|..] == rest;
    }
  }

  lemma ShortLength(lo: byte, hi: byte)
    ensures Length([lo]) == lo && Length([lo, hi]) == Two(lo, hi)
  {
    assert [lo][1..] == [] && [hi][1..] == [];
    assert [lo, hi][1..] == [hi];
    assert Length([]) == 0;
  }

  lemma {:induction false} CollectOfPushes(record: seq<byte>, before: seq<byte>)
    requires |before| + |record| <= RECORD_BYTES
    ensures Collect(Pushes(record) + [ENDIF], before) == Some(before + record)
    decreases |record|
  {
    hide Next;
    hide Push;
    hide Pushes;
    if record == [] {
      PushesNothing();
      NextEnd();
      assert before + [] == before && [] + [ENDIF] == [ENDIF];
    } else {
      PushesUnfold(record);
      var b, rest := record[..First(record)], record[First(record)..];
      CollectOfPushes(rest, before + b);
      var s, tail := Pushes(record) + [ENDIF], Pushes(rest) + [ENDIF];
      assert s == Push(b) + tail;
      NextOfPush(b, tail);
      assert before + b + rest == before + record;
    }
  }

  lemma NextEnd()
    ensures Next([ENDIF]) == Some((Op(ENDIF), []))
  {}

  lemma HeadSkips(author: Key, tail: seq<byte>)
    ensures Skip(Head(author) + tail, 5) == Some(tail)
  {
    hide Next;
    hide Skip;
    hide Head;
    var s := Head(author) + tail;
    HeadBytes(author, tail);
    assert s[0..] == s;
    SkipOne(s, 0, 33, 4);
    SkipOne(s, 33, 34, 3);
    SkipOne(s, 34, 35, 2);
    SkipOne(s, 35, 36, 1);
    SkipOne(s, 36, 41, 0);
    SkipNone(tail);
  }

  lemma HeadBytes(author: Key, tail: seq<byte>)
    ensures var s := Head(author) + tail;
            && |s| >= 41 && s[0] == 0x20 && s[33] == 0xac && s[34] == 0 && s[35] == 0x63 && s[36] == 4 && s[41..] == tail
  {
    var s := Head(author) + tail;
    assert s[33..41] == OPENING;
    assert s[33] == s[33..41][0] && s[34] == s[33..41][1] && s[35] == s[33..41][2] && s[36] == s[33..41][3];
  }

  lemma SkipNone(s: seq<byte>)
    ensures Skip(s, 0) == Some(s)
  {}

  /** One instruction of the head: a push of 4 or 32 bytes, the empty push, or another opcode. */
  lemma SkipOne(s: seq<byte>, at: nat, to: nat, n: nat)
    requires at < to <= |s| && s[at] in [0x20, 4, 0, 0xac, 0x63]
    requires to == at + 1 + (if s[at] <= 75 then s[at] else 0)
    ensures Skip(s[at..], n + 1) == Skip(s[to..], n)
  {
    assert s[at..][to - at..] == s[to..];
  }

  /** The library's reader accepts exactly the canonical scripts of valid keys under their own control block. */
  lemma ExtractIffCanonical(curve: Curve, items: seq<seq<byte>>, author: Key, record: seq<byte>)
    requires |items| == 3 && |items[0]| == 64 && |items[2]| == 33
    requires curve.isKey(author) && curve.control(items[2]) == Some((true, author))
    ensures Extract(curve, items) == Some((author, record)) <==> |record| <= RECORD_BYTES && items[1] == Script(author, record)
  {
    hide Collect;
    hide Skip;
    hide Pushes;
    hide Head;
    if |record| <= RECORD_BYTES && items[1] == Script(author, record) {
      var tail := Pushes(record) + [ENDIF];
      HeadParts(author, tail);
      HeadSkips(author, tail);
      CollectOfPushes(record, []);
      assert [] + record == record;
      ScriptSize(author, record);
    } else if Extract(curve, items) == Some((author, record)) {
      CollectedSize(Skip(items[1], 5).value, []);
    }
  }

  lemma {:induction false} CollectedSize(s: seq<byte>, before: seq<byte>)
    requires |before| <= RECORD_BYTES
    ensures Collect(s, before).Some? ==> |Collect(s, before).value| <= RECORD_BYTES
    decreases |s|
  {
    hide Next;
    if s != [] && Next(s).Some? {
      var (i, rest) := Next(s).value;
      if i != Op(ENDIF) && Part(i).Some? && |before + Part(i).value| <= RECORD_BYTES {
        CollectedSize(rest, before + Part(i).value);
      }
    }
  }

  /** Whatever the library extracts is a canonical script that the script's reader reads alike. */
  lemma ReadersAgree(curve: Curve, items: seq<seq<byte>>)
    requires Extract(curve, items).Some?
    ensures Envelope(items[1]) == Extract(curve, items)
  {
    hide Collect;
    hide Skip;
    hide Script;
    hide Envelope;
    var (author, record) := Extract(curve, items).value;
    CollectedSize(Skip(items[1], 5).value, []);
    EnvelopeIffCanonical(items[1], author, record);
  }

  // ----- the filter

  /** `is_candidate`. */
  predicate IsCandidate(items: seq<seq<byte>>) {
    |items| == 3 && |items[1]| >= 41 && items[1][34..41] == [0, 99, 4, 85, 82, 77, 65]
  }

  /** The filter lets every acceptable witness through. */
  lemma AcceptedIsCandidate(curve: Curve, items: seq<seq<byte>>)
    requires Extract(curve, items).Some?
    ensures IsCandidate(items)
  {
    hide Collect;
    hide Skip;
    hide Pushes;
    hide Head;
    var (author, record) := Extract(curve, items).value;
    HeadParts(author, Pushes(record) + [ENDIF]);
    assert items[1][34..41] == items[1][33..41][1..];
  }
}
