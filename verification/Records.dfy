/** What all records share (`format.rs`): the prefix and its kinds, content types, chunk counts, little-endian fields. */
module Records {
  import opened Bytes
  import opened Positional

  /** Errors by the kind that callers tell apart. */
  datatype Error = Invalid | Unsupported | Missing | Integer

  datatype Result<+T> = Ok(value: T) | Err(error: Error)

  datatype Kind = Private | Post | Container | Reply | Profile | Avatar | DataPart | LeafManifest
    | RootManifest | WirePost | WireReply | ProfileRecord
  {
    function Code(): (c: byte)
      ensures 1 <= c <= 12
    {
      match this
      case Private => 1
      case Post => 2
      case Container => 3
      case Reply => 4
      case Profile => 5
      case Avatar => 6
      case DataPart => 7
      case LeafManifest => 8
      case RootManifest => 9
      case WirePost => 10
      case WireReply => 11
      case ProfileRecord => 12
    }

    function Prefix(): (p: seq<byte>)
      ensures |p| == 8
    {
      [85, 82, 77, 65, 0, Code(), 0, 0]
    }
  }

  const MAGIC: seq<byte> := [85, 82, 77, 65]
  const KINDS: seq<Kind> := [Private, Post, Container, Reply, Profile, Avatar, DataPart, LeafManifest,
                             RootManifest, WirePost, WireReply, ProfileRecord]

  function ParseKind(bytes: seq<byte>): Result<Kind> {
    if |bytes| < 8 then Err(Invalid)
    else if bytes[..4] != MAGIC then Err(Unsupported)
    else if bytes[4] != 0 then Err(Unsupported)
    else if bytes[6..8] != [0, 0] then Err(Unsupported)
    else if 1 <= bytes[5] <= 12 then Ok(KINDS[bytes[5] - 1])
    else Err(Unsupported)
  }

  /** A prefix parses to its kind, and only that prefix does. */
  lemma KindIsPrefix(bytes: seq<byte>, kind: Kind)
    ensures ParseKind(bytes) == Ok(kind) <==> StartsWith(bytes, kind.Prefix())
  {
    assert KINDS[kind.Code() - 1] == kind;
    if |bytes| >= 8 {
      var head := bytes[..8];
      assert head == [head[0], head[1], head[2], head[3], head[4], head[5], head[6], head[7]];
      assert bytes[..4] == [head[0], head[1], head[2], head[3]];
      assert bytes[6..8] == [head[6], head[7]];
      assert 1 <= bytes[5] <= 12 ==> KINDS[bytes[5] - 1].Code() == bytes[5];
    }
  }

  datatype ContentType = Opaque | Text | Image | Audio | Video {
    function Code(): (c: nat)
      ensures c < 5 && ContentTypeOf(c) == Ok(this)
    {
      match this
      case Opaque => 0
      case Text => 1
      case Image => 2
      case Audio => 3
      case Video => 4
    }
  }

  function ContentTypeOf(code: nat): Result<ContentType> {
    if code == 0 then Ok(Opaque)
    else if code == 1 then Ok(Text)
    else if code == 2 then Ok(Image)
    else if code == 3 then Ok(Audio)
    else if code == 4 then Ok(Video)
    else Err(Unsupported)
  }

  // ----- chunks

  const CHUNK: nat := 32_768
  const MAX_PRIVATE: nat := 140_737_488_322_560
  const U32: nat := 0x1_0000_0000

  function DivCeil(n: nat, d: nat): nat
    requires d > 0
  {
    (n + d - 1) / d
  }

  /** The width check of the result never fails. */
  function ChunkCount(length: nat): (r: Result<nat>)
    ensures r.Ok? <==> 1 <= length <= MAX_PRIVATE
    ensures r.Err? ==> r.error == Invalid
    ensures r.Ok? ==> 0 < r.value < U32 && CHUNK * (r.value - 1) < length <= CHUNK * r.value
  {
    if 1 <= length <= MAX_PRIVATE then
      if DivCeil(length, CHUNK) < U32 then Ok(DivCeil(length, CHUNK)) else Err(Integer)
    else Err(Invalid)
  }

  // ----- little-endian fields

  function LE(n: nat, v: nat): (s: seq<byte>)
    ensures |s| == n
  {
    Digits(256, n, v)
  }

  function FromLE(s: seq<byte>): (v: nat) {
    Value(256, s)
  }

  lemma FieldRoundTrip(n: nat, v: nat)
    requires v < Power(256, n)
    ensures FromLE(LE(n, v)) == v
  {
    ValueOfDigits(256, n, v);
  }

  lemma FieldIsCanonical(s: seq<byte>)
    ensures FromLE(s) < Power(256, |s|) && LE(|s|, FromLE(s)) == s
  {
    ValueBound(256, s);
    DigitsOfValue(256, s);
  }

  lemma Powers()
    ensures Power(256, 4) == U32 && Power(256, 8) == U32 * U32 && Power(256, 2) == 0x10000
  {
    assert Power(256, 2) == 0x10000;
    assert Power(256, 4) == U32;
    PowerAdd(256, 4, 4);
  }
}
