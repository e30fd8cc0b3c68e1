/**
 The portal a gateway serves (`gateway_host.rs`): its authority, its registries and the two kinds of
 link text it writes. Labels and links are ASCII byte strings.
 */
module PortalHost {
  import opened Bytes

  const MAX_HOST_BYTES := 253
  const MAX_NAME_BYTES := 63

  const LOCALHOST: seq<byte> := [108, 111, 99, 97, 108, 104, 111, 115, 116]
  const AUTHORITY_MARK: seq<byte> := [58, 47, 47]  // "://"
  const UNAVAILABLE_PATH: seq<byte> :=
    [47, 117, 110, 97, 118, 97, 105, 108, 97, 98, 108, 101, 63, 117, 61]  // "/unavailable?u="

  datatype Suffix = Ltc | Btc | Tltc | Tbtc {
    function Label(): seq<byte> {
      match this
      case Ltc => [108, 116, 99]
      case Btc => [98, 116, 99]
      case Tltc => [116, 108, 116, 99]
      case Tbtc => [116, 98, 116, 99]
    }
  }

  function ParseSuffix(part: seq<byte>): (r: Option<Suffix>)
    ensures forall s: Suffix :: r == Some(s) <==> part == s.Label()
  {
    if part == Ltc.Label() then Some(Ltc)
    else if part == Btc.Label() then Some(Btc)
    else if part == Tltc.Label() then Some(Tltc)
    else if part == Tbtc.Label() then Some(Tbtc)
    else None
  }

  datatype LinkScheme = Http | Https {
    function Label(): seq<byte> {
      if Http? then [104, 116, 116, 112] else [104, 116, 116, 112, 115]
    }
  }

  type Port = n: nat | n < 65536

  datatype PublicPort = Default | Explicit(port: Port)

  /** The bytes a portal ever writes into a page: nothing that HTML or a refresh value delimits by. */
  predicate Safe(b: byte) {
    IsAlpha(b) || IsDigit(b) || b in [DASH, DOT, COLON, SLASH, PERCENT, QUESTION, EQUALS, 95, 126]
  }

  predicate AllSafe(s: seq<byte>) {
    forall i :: 0 <= i < |s| ==> Safe(s[i])
  }

  predicate IsHostByte(b: byte) {
    IsLower(b) || IsDigit(b) || b == DASH
  }

  predicate IsDnsLabel(part: seq<byte>) {
    1 <= |part| <= MAX_NAME_BYTES && forall i :: 0 <= i < |part| ==> IsHostByte(part[i])
  }

  predicate IsTxid(part: seq<byte>) {
    |part| == 64 && forall i :: 0 <= i < |part| ==> IsDigit(part[i]) || 97 <= part[i] <= 102
  }

  /** `Name::parse` accepts the part and keeps it unchanged. */
  predicate IsName(part: seq<byte>) {
    && IsDnsLabel(part)
    && part[0] != DASH
    && part[|part| - 1] != DASH
    && (|part| < 4 || part[2] != DASH || part[3] != DASH)
  }

  /** The first position of `b` in `s`, or the length. */
  function IndexOf(s: seq<byte>, b: byte): (k: nat)
    ensures k <= |s|
    ensures k < |s| ==> s[k] == b
    ensures forall i :: 0 <= i < k ==> s[i] != b
  {
    if s == [] || s[0] == b then 0 else 1 + IndexOf(s[1..], b)
  }

  /** `split('.')`. */
  function Labels(host: seq<byte>): (r: seq<seq<byte>>)
    ensures |r| >= 1
    decreases |host|
  {
    var k := IndexOf(host, DOT);
    if k == |host| then [host] else [host[..k]] + Labels(host[k + 1..])
  }

  predicate DnsLabels(domain: seq<byte>) {
    forall l :: l in Labels(domain) ==> IsDnsLabel(l)
  }

  lemma {:induction false} LabelBytes(host: seq<byte>)
    requires DnsLabels(host)
    ensures AllSafe(host)
    decreases |host|
  {
    var k := IndexOf(host, DOT);
    if k == |host| {
      assert host in Labels(host);
    } else {
      var rest := Labels(host[k + 1..]);
      assert Labels(host)[0] == host[..k];
      assert IsDnsLabel(host[..k]);
      assert forall l :: l in rest ==> l in Labels(host);
      LabelBytes(host[k + 1..]);
      forall i | 0 <= i < |host|
        ensures Safe(host[i])
      {
        if i < k {
          assert host[i] == host[..k][i];
        } else if i > k {
          assert host[i] == host[k + 1..][i - k - 1];
        }
      }
    }
  }

  function Decimal(n: nat): (r: seq<byte>)
    ensures |r| >= 1
    ensures forall i :: 0 <= i < |r| ==> IsDigit(r[i])
  {
    if n < 10 then [48 + n] else Decimal(n / 10) + [48 + n % 10]
  }

  datatype Portal = Portal(domain: seq<byte>, authority: seq<byte>, scheme: LinkScheme,
                           registries: map<Suffix, seq<byte>>)
  {
    predicate Valid() {
      AllSafe(authority)
    }

    predicate IsRegistry(suffix: Suffix, genesis: seq<byte>) {
      suffix in registries && registries[suffix] == genesis
    }

    function ApexOrigin(): seq<byte> {
      scheme.Label() + AUTHORITY_MARK + authority
    }

    function SiteOrigin(name: seq<byte>, suffix: Suffix): seq<byte> {
      scheme.Label() + AUTHORITY_MARK + name + [DOT] + suffix.Label() + [DOT] + authority
    }
  }

  function Authority(domain: seq<byte>, port: PublicPort): (r: seq<byte>)
    ensures AllSafe(domain) ==> AllSafe(r)
  {
    match port
    case Default => domain
    case Explicit(n) => domain + [COLON] + Decimal(n)
  }

  /** `Portal::new`. */
  function Create(domain: seq<byte>, scheme: LinkScheme, port: PublicPort, registries: map<Suffix, seq<byte>>)
    : (r: Option<Portal>)
    ensures r.Some? ==> r.value.Valid()
    ensures r.Some? <==>
              && 1 <= |domain| <= MAX_HOST_BYTES
              && DnsLabels(domain)
              && registries != map[]
              && (scheme.Http? <==> domain == LOCALHOST)
  {
    if !(1 <= |domain| <= MAX_HOST_BYTES) then None
    else if !DnsLabels(domain) then None
    else if registries == map[] then None
    else if scheme.Http? != (domain == LOCALHOST) then None
    else
      LabelBytes(domain);
      Some(Portal(domain, Authority(domain, port), scheme, registries))
  }

  // ----- the link to the page that says a target is not available

  predicate Unreserved(b: byte) {
    IsAlpha(b) || IsDigit(b) || b in [DASH, DOT, 95, 126]
  }

  function HexDigit(n: nat): (d: byte)
    requires n < 16
    ensures IsDigit(d) || 65 <= d <= 70
  {
    if n < 10 then 48 + n else 55 + n
  }

  function PercentByte(b: byte): (r: seq<byte>)
    ensures AllSafe(r)
  {
    if Unreserved(b) then [b] else [PERCENT, HexDigit(b / 16), HexDigit(b % 16)]
  }

  /** Letters, digits and `-._~` stand for themselves; every other byte is `%` and two uppercase hex digits. */
  lemma EscapesAre(b: byte)
    ensures 48 <= b <= 57 || 65 <= b <= 90 || 97 <= b <= 122 || b in [45, 46, 95, 126] ==> PercentByte(b) == [b]
    ensures !(48 <= b <= 57 || 65 <= b <= 90 || 97 <= b <= 122 || b in [45, 46, 95, 126]) ==>
              && |PercentByte(b)| == 3 && PercentByte(b)[0] == 37
              && (forall k :: 1 <= k <= 2 ==> 48 <= PercentByte(b)[k] <= 57 || 65 <= PercentByte(b)[k] <= 70)
              && Unpercent(PercentByte(b)) == [b]
  {
    UnpercentByte(b, []);
    assert PercentByte(b) + [] == PercentByte(b) && [b] + Unpercent([]) == [b];
  }

  function Percent(s: seq<byte>): (r: seq<byte>)
    ensures AllSafe(r)
  {
    if s == [] then [] else Percent(s[..|s| - 1]) + PercentByte(s[|s| - 1])
  }

  function HexValue(d: byte): int {
    if IsDigit(d) then d - 48 else d - 55
  }

  /** A percent decoder, to say that `Percent` loses nothing. */
  function Unpercent(s: seq<byte>): seq<int> {
    if s == [] then []
    else if s[0] == PERCENT && |s| >= 3 then [16 * HexValue(s[1]) + HexValue(s[2])] + Unpercent(s[3..])
    else [s[0]] + Unpercent(s[1..])
  }

  lemma UnpercentByte(b: byte, tail: seq<byte>)
    ensures Unpercent(PercentByte(b) + tail) == [b] + Unpercent(tail)
  {
    var p := PercentByte(b) + tail;
    if Unreserved(b) {
      assert p[1..] == tail;
    } else {
      assert p[3..] == tail;
      assert HexValue(HexDigit(b / 16)) == b / 16 && HexValue(HexDigit(b % 16)) == b % 16;
    }
  }

  lemma {:induction false} UnpercentAppend(s: seq<byte>, tail: seq<byte>)
    ensures Unpercent(Percent(s) + tail) == s + Unpercent(tail)
  {
    hide PercentByte;
    hide Unpercent;
    hide AllSafe;
    if s == [] {
      assert Percent(s) + tail == tail;
      assert s + Unpercent(tail) == Unpercent(tail);
    } else {
      var init, b := s[..|s| - 1], s[|s| - 1];
      var p := PercentByte(b) + tail;
      assert Percent(s) + tail == Percent(init) + p;
      UnpercentAppend(init, p);
      UnpercentByte(b, tail);
      assert s == init + [b];
      assert init + ([b] + Unpercent(tail)) == s + Unpercent(tail);
    }
  }

  /** The link text is unambiguous: it decodes to the link that could not be followed. */
  lemma UnavailableRoundTrip(original: seq<byte>)
    ensures Unpercent(Percent(original)) == original
  {
    UnpercentAppend(original, []);
    assert Percent(original) + [] == Percent(original);
  }

  function UnavailableLink(portal: Portal, original: seq<byte>): seq<byte> {
    portal.ApexOrigin() + UNAVAILABLE_PATH + Percent(original)
  }

  method Unavailable(portal: Portal, original: seq<byte>) returns (link: seq<byte>)
    ensures link == UnavailableLink(portal, original)
  {
    link := portal.ApexOrigin() + UNAVAILABLE_PATH;
    ghost var head := link;
    for i := 0 to |original|
      invariant link == head + Percent(original[..i])
    {
      assert original[..i + 1][..i] == original[..i];
      link := link + PercentByte(original[i]);
    }
    assert original[..|original|] == original;
  }
}
