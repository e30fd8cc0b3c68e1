/**
 Which records a recovery skips, rejects and takes, by their bytes: the mark, the kind, the discovery tag,
 the authenticator and the deciphered body; and that the counts of a recovery count those.
 */
module RecoveryClasses {
  import opened Bytes
  import opened Positional
  import opened Records
  import opened PrivateRecords
  import opened PrivateCounters
  import opened PrivateFiles
  import opened PrivateObjects
  import opened Recovery
  import RecoveryOrder

  // ----- by the bytes

  /** "URMA". */
  predicate Marked(r: seq<byte>) {
    |r| >= 4 && r[0] == 85 && r[1] == 82 && r[2] == 77 && r[3] == 65
  }

  /** Marked, of this version, without flags. */
  predicate Prefixed(r: seq<byte>) {
    |r| >= 8 && Marked(r) && r[4] == 0 && r[6] == 0 && r[7] == 0
  }

  /** A private record of the right length whose index is below its count. */
  predicate Shaped(r: seq<byte>) {
    Prefixed(r) && r[5] == 1 && |r| == 32_928 && FromLE(r[56..60]) < FromLE(r[60..64])
  }

  /** Not for this reader: no mark, another kind of record, or another discovery tag. */
  predicate Unrelated(crypto: Crypto, r: seq<byte>) {
    || !Marked(r)
    || (Prefixed(r) && 2 <= r[5] <= 12)
    || (Shaped(r) && r[40..56] != crypto.tag(r[8..40]))
  }

  /** The tag and the authenticator are this reader's. */
  predicate Authentic(crypto: Crypto, r: seq<byte>) {
    Shaped(r) && r[40..56] == crypto.tag(r[8..40]) && r[32_896..] == crypto.mac(r[8..40], r[..32_896])
  }

  /** The counter is that of the index, and the deciphered metadata fit the header. */
  predicate Readable(crypto: Crypto, r: seq<byte>)
    requires Shaped(r)
  {
    && BigEndian(r[64..80]) == FromLE(r[56..60]) * STRIDE
    && var body := Mask(crypto, r[8..40], r[64..80], r[80..32_896]);
       && ChunkCount(FromLE(body[32..40])) == Ok(FromLE(r[60..64]))
       && FromLE(body[40..44]) < 5
       && body[44..48] == Zeros(4)
  }

  /** Neither unrelated, nor both authentic and readable. */
  predicate Refused(crypto: Crypto, r: seq<byte>) {
    !Unrelated(crypto, r) && !(Authentic(crypto, r) && Readable(crypto, r))
  }

  // ----- the classes

  lemma KindByBytes(r: seq<byte>)
    ensures StartsWith(r, MAGIC) <==> Marked(r)
    ensures Prefixed(r) ==> Marked(r)
    ensures ParseKind(r) == Ok(Private) <==> Prefixed(r) && r[5] == 1
    ensures ParseKind(r).Ok? && ParseKind(r).value != Private <==> Prefixed(r) && 2 <= r[5] <= 12
  {
    if |r| >= 4 {
      assert r[..4] == [r[0], r[1], r[2], r[3]];
    }
    if |r| >= 8 {
      assert r[6..8] == [r[6], r[7]];
    }
  }

  lemma {:induction false} SameNumberSameBytes(s: seq<byte>, t: seq<byte>)
    requires |s| == |t| && BigEndian(s) == BigEndian(t)
    ensures s == t
    decreases |s|
  {
    if s != [] {
      var n := |s| - 1;
      LastByte(BigEndian(s[..n]), s[n], BigEndian(t[..n]), t[n]);
      SameNumberSameBytes(s[..n], t[..n]);
      assert s == s[..n] + [s[n]] && t == t[..n] + [t[n]];
    }
  }

  lemma LastByte(a: nat, x: byte, b: nat, y: byte)
    requires 256 * a + x == 256 * b + y
    ensures a == b && x == y
  {}

  lemma CounterByBytes(iv: Tag, index: nat)
    requires index < U32
    ensures iv == Nonce(index) <==> BigEndian(iv) == index * STRIDE
  {
    hide BigEndian;
    hide Nonce;
    NonceIs(index);
    if BigEndian(iv) == index * STRIDE {
      SameNumberSameBytes(iv, Nonce(index));
    }
  }

  lemma HeaderByBytes(r: seq<byte>)
    ensures InspectHeader(r).Ok? <==> Shaped(r)
    ensures Shaped(r) ==> InspectHeader(r).value == RecordHeader(r[8..40], r[40..56], FromLE(r[56..60]), FromLE(r[60..64]))
  {
    hide FromLE;
    hide ParseKind;
    hide Prefixed;
    KindByBytes(r);
  }

  lemma ContentTypes(code: nat)
    ensures ContentTypeOf(code).Ok? <==> code < 5
  {}

  lemma BodyByBytes(h: RecordHeader, body: seq<byte>, recordDigest: Digest)
    requires |body| == MAC - BODY && h.index < h.count
    ensures ReadBody(h, body, recordDigest).Ok? <==>
            ChunkCount(FromLE(body[32..40])) == Ok(h.count) && FromLE(body[40..44]) < 5 && body[44..48] == Zeros(4)
    ensures ReadBody(h, body, recordDigest).Ok? ==> ReadBody(h, body, recordDigest).value.Authenticated?
  {
    hide FromLE;
    hide Zeros;
    hide SizeOf;
    hide ContentTypeOf;
    ContentTypes(FromLE(body[40..44]));
    var total := FromLE(body[32..40]);
    if ChunkCount(total) == Ok(h.count) {
      OffsetWithin(total, h.index);
    }
  }

  /** What opening a shaped record comes to, in its three outcomes. */
  lemma ShapedIsOpened(crypto: Crypto, r: seq<byte>)
    requires Shaped(r)
    ensures OpenRecord(crypto, r) == Ok(Match.Unrelated) <==> r[40..56] != crypto.tag(r[8..40])
    ensures OpenRecord(crypto, r).Ok? && OpenRecord(crypto, r).value.Authenticated? <==> Authentic(crypto, r) && Readable(crypto, r)
  {
    hide FromLE;
    hide ParseKind;
    hide Mask;
    hide Nonce;
    hide BigEndian;
    hide Zeros;
    hide ReadBody;
    hide InspectHeader;
    hide ChunkCount;
    hide Prefixed;
    KindByBytes(r);
    HeaderByBytes(r);
    IndexFits(r);
    var h := InspectHeader(r).value;
    CounterByBytes(r[64..80], h.index);
    BodyByBytes(h, Mask(crypto, h.id, Nonce(h.index), r[BODY..MAC]), crypto.sha(r));
  }

  /**
   A record is skipped exactly when it is unrelated, taken exactly when it is authentic and readable, and
   rejected otherwise.
   */
  lemma ClassByBytes(crypto: Crypto, r: seq<byte>)
    ensures Classify(crypto, r) == Skip <==> Unrelated(crypto, r)
    ensures Classify(crypto, r).Take? <==> Authentic(crypto, r) && Readable(crypto, r)
    ensures Classify(crypto, r) == Reject <==> Refused(crypto, r)
  {
    hide FromLE;
    hide Readable;
    hide Mask;
    hide Nonce;
    hide ReadBody;
    hide Prefixed;
    hide ParseKind;
    NothingIsFatal(crypto, r);
    KindByBytes(r);
    HeaderByBytes(r);
    if Shaped(r) {
      ShapedIsOpened(crypto, r);
    }
  }

  // ----- counting

  /** The positions of the unrelated records, and of those rejected. */
  ghost function UnrelatedAt(crypto: Crypto, records: seq<seq<byte>>): set<nat> {
    set i: nat | i < |records| && Unrelated(crypto, records[i])
  }

  ghost function RejectedAt(crypto: Crypto, records: seq<seq<byte>>): set<nat> {
    set i: nat | i < |records| && Refused(crypto, records[i])
  }

  lemma OneMoreAt(before: set<nat>, after: set<nat>, n: nat, here: bool)
    requires n !in before && after == if here then before + {n} else before
    ensures |after| == |before| + if here then 1 else 0
  {}

  lemma NothingAt(crypto: Crypto)
    ensures UnrelatedAt(crypto, []) == {} && RejectedAt(crypto, []) == {}
    ensures Skipped(crypto, []) == 0 && Rejected(crypto, []) == 0
  {
    hide Unrelated;
    hide Authentic;
  }

  lemma AtGrows(crypto: Crypto, init: seq<seq<byte>>, r: seq<byte>)
    ensures var records, n := init + [r], |init|;
            && n !in UnrelatedAt(crypto, init) && n !in RejectedAt(crypto, init)
            && UnrelatedAt(crypto, records) == (if Unrelated(crypto, r) then UnrelatedAt(crypto, init) + {n} else UnrelatedAt(crypto, init))
            && RejectedAt(crypto, records) == (if Refused(crypto, r) then RejectedAt(crypto, init) + {n} else RejectedAt(crypto, init))
  {
    hide Unrelated;
    hide Refused;
    var records, n := init + [r], |init|;
    assert records[n] == r && forall i :: 0 <= i < n ==> records[i] == init[i];
  }

  lemma {:induction false} TalliesCount(crypto: Crypto, records: seq<seq<byte>>)
    ensures Skipped(crypto, records) == |UnrelatedAt(crypto, records)|
    ensures Rejected(crypto, records) == |RejectedAt(crypto, records)|
    decreases |records|
  {
    hide Classify;
    hide Unrelated;
    hide Authentic;
    hide Readable;
    hide Shaped;
    hide UnrelatedAt;
    hide RejectedAt;
    hide Skipped;
    hide Rejected;
    if records == [] {
      NothingAt(crypto);
    } else {
      var n := |records| - 1;
      var init, r := records[..n], records[n];
      TalliesCount(crypto, init);
      assert records == init + [r];
      RecoveryOrder.TallyConcat(crypto, init, [r]);
      OneTally(crypto, r);
      ClassByBytes(crypto, r);
      AtGrows(crypto, init, r);
      OneMoreAt(UnrelatedAt(crypto, init), UnrelatedAt(crypto, records), n, Classify(crypto, r) == Skip);
      OneMoreAt(RejectedAt(crypto, init), RejectedAt(crypto, records), n, Classify(crypto, r) == Reject);
    }
  }

  lemma OneTally(crypto: Crypto, r: seq<byte>)
    ensures Skipped(crypto, [r]) == if Classify(crypto, r) == Skip then 1 else 0
    ensures Rejected(crypto, [r]) == if Classify(crypto, r) == Reject then 1 else 0
  {
    hide Classify;
    assert [r][1..] == [];
    assert Skipped(crypto, []) == 0 && Rejected(crypto, []) == 0;
  }

  /** The two counts of a recovery are the numbers of its unrelated and of its rejected records. */
  lemma RecoveryCounts(crypto: Crypto, records: seq<seq<byte>>)
    requires RecoverRecords(crypto, records).Ok?
    ensures RecoverRecords(crypto, records).value.skipped == |UnrelatedAt(crypto, records)|
    ensures RecoverRecords(crypto, records).value.rejected == |RejectedAt(crypto, records)|
  {
    hide RecoverRecords;
    hide UnrelatedAt;
    hide RejectedAt;
    hide Taken;
    hide Gather;
    RecoveryIsSummary(crypto, records);
    TalliesCount(crypto, records);
  }
}
