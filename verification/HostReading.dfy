/**
 How the gateway reads hosts (`authority`, `classify` and `site` in `gateway_host.rs`), and that it reads
 its own links back: a rewritten link leads to the site that the `urma://` link names.
 */
module HostReading {
  import opened Bytes
  import HtmlScan
  import opened PortalHost
  import opened LinkRewrite

  datatype HostError = Malformed | UnknownSuffix | NotAName | Publication | Registry

  datatype Result<+T> = Ok(value: T) | Err(error: HostError)

  datatype Host = Apex | SiteHost(name: seq<byte>, suffix: Suffix) | Foreign

  // ----- the host of a header

  /** The last position of `b`, or the length. */
  function LastIndexOf(s: seq<byte>, b: byte): (k: nat)
    ensures k <= |s|
    ensures k < |s| ==> s[k] == b
    ensures forall i :: k < i < |s| ==> s[i] != b
    ensures k == |s| ==> b !in s
  {
    if s == [] then 0
    else
      var n := |s| - 1;
      if s[n] == b then n
      else
        var k := LastIndexOf(s[..n], b);
        if k == n then |s| else k
  }

  function CheckPort(rest: seq<byte>, digits: Option<seq<byte>>): Option<HostError> {
    if rest == [] then None
    else match digits
         case None => Some(Malformed)
         case Some(d) =>
           if d == [] || |d| > 5 || !(forall i :: 0 <= i < |d| ==> IsDigit(d[i])) then Some(Malformed) else None
  }

  const OPEN: byte := 91
  const CLOSE: byte := 93

  /** `without_port`. */
  function WithoutPort(header: seq<byte>): Result<seq<byte>> {
    if StartsWith(header, [OPEN]) then
      var end := IndexOf(header, CLOSE);
      if end == |header| then Err(Malformed)
      else
        var rest := header[end + 1..];
        var digits := if StartsWith(rest, [COLON]) then Some(rest[1..]) else None;
        var bad := CheckPort(rest, digits);
        if bad.Some? then Err(bad.value) else Ok(header[..end + 1])
    else
      var colon := LastIndexOf(header, COLON);
      if colon == |header| then Ok(header)
      else
        var port := header[colon + 1..];
        var bad := CheckPort(port, Some(port));
        if bad.Some? then Err(bad.value) else Ok(header[..colon])
  }

  /** `authority`. */
  function HeaderHost(header: seq<byte>): Result<seq<byte>> {
    match WithoutPort(header)
    case Err(e) => Err(e)
    case Ok(host) =>
      if host == [] || |host| > MAX_HOST_BYTES then Err(Malformed)
      else if !(forall i :: 0 <= i < |host| ==> 33 <= host[i] <= 126) then Err(Malformed)
      else Ok(host)
  }

  // ----- what a host is

  /** `site`. */
  function SiteOf(text: seq<byte>): Result<Host> {
    var parts := Labels(text);
    if [] in parts then Err(Malformed)
    else if |parts| == 2 then
      match ParseSuffix(parts[1])
      case None => Err(UnknownSuffix)
      case Some(suffix) =>
        if IsTxid(parts[0]) then Err(Publication)
        else if !IsName(parts[0]) then Err(NotAName)
        else Ok(SiteHost(parts[0], suffix))
    else if |parts| == 3 && IsTxid(parts[0]) then
      if ParseSuffix(parts[2]).None? then Err(UnknownSuffix)
      else if !IsName(parts[1]) then Err(NotAName)
      else Err(Registry)
    else Err(Malformed)
  }

  predicate EndsWith(s: seq<byte>, tail: seq<byte>) {
    |tail| <= |s| && s[|s| - |tail|..] == tail
  }

  /** `classify`. */
  function Classify(host: seq<byte>, portal: Portal): Result<Host> {
    if host == portal.domain then Ok(Apex)
    else if !EndsWith(host, portal.domain) then Ok(Foreign)
    else
      var prefix := host[..|host| - |portal.domain|];
      if !EndsWith(prefix, [DOT]) then Ok(Foreign) else SiteOf(prefix[..|prefix| - 1])
  }

  // ----- labels

  function Joined(parts: seq<seq<byte>>): seq<byte>
    requires parts != []
  {
    if |parts| == 1 then parts[0] else parts[0] + [DOT] + Joined(parts[1..])
  }

  predicate Undotted(parts: seq<seq<byte>>) {
    forall l :: l in parts ==> DOT !in l
  }

  /** Labels are what stands between the dots: without dots themselves, and joined by dots the whole. */
  lemma {:induction false} LabelsAreBetweenDots(host: seq<byte>)
    ensures Joined(Labels(host)) == host && Undotted(Labels(host))
    decreases |host|
  {
    hide Labels;
    hide Joined;
    var k := IndexOf(host, DOT);
    LabelsUnfold(host);
    if k < |host| {
      LabelsAreBetweenDots(host[k + 1..]);
      JoinedUnfolds(host[..k], Labels(host[k + 1..]));
      assert host == host[..k] + [DOT] + host[k + 1..];
    } else {
      OnePart(host);
    }
  }

  lemma LabelsUnfold(host: seq<byte>)
    ensures var k := IndexOf(host, DOT);
            && (k == |host| ==> Labels(host) == [host])
            && (k < |host| ==> Labels(host) == [host[..k]] + Labels(host[k + 1..]))
  {
    hide IndexOf;
  }

  lemma JoinedUnfolds(part: seq<byte>, rest: seq<seq<byte>>)
    requires rest != []
    ensures Joined([part] + rest) == part + [DOT] + Joined(rest)
  {
    assert ([part] + rest)[1..] == rest;
  }

  lemma OnePart(part: seq<byte>)
    ensures Joined([part]) == part
  {}

  /** Nothing else is: undotted parts joined by dots are the labels. */
  lemma {:induction false} LabelsOfJoined(parts: seq<seq<byte>>)
    requires parts != [] && Undotted(parts)
    ensures Labels(Joined(parts)) == parts
    decreases |parts|
  {
    var host := Joined(parts);
    assert parts[0] in parts;
    if |parts| == 1 {
      NoDot(host);
    } else {
      var rest := parts[1..];
      forall l | l in rest ensures DOT !in l { assert l in parts; }
      LabelsOfJoined(rest);
      FirstDot(parts[0], Joined(rest));
      assert parts == [parts[0]] + rest;
    }
  }

  lemma NoDot(host: seq<byte>)
    requires DOT !in host
    ensures Labels(host) == [host]
  {}

  lemma FirstDot(part: seq<byte>, rest: seq<byte>)
    requires DOT !in part
    ensures Labels(part + [DOT] + rest) == [part] + Labels(rest)
  {
    var host := part + [DOT] + rest;
    var k := IndexOf(host, DOT);
    assert host[|part|] == DOT;
    assert forall i :: 0 <= i < |part| ==> host[i] == part[i] != DOT;
    assert host[..k] == part && host[k + 1..] == rest;
  }

  // ----- a site of the portal

  lemma NameIsUndotted(name: seq<byte>)
    requires IsName(name)
    ensures DOT !in name && name != [] && !IsTxid(name)
  {
    assert forall i :: 0 <= i < |name| ==> IsHostByte(name[i]);
  }

  lemma SuffixIsUndotted(suffix: Suffix)
    ensures DOT !in suffix.Label() && suffix.Label() != []
  {}

  lemma NameDotSuffix(name: seq<byte>, suffix: Suffix)
    requires IsName(name)
    ensures SiteOf(name + [DOT] + suffix.Label()) == Ok(SiteHost(name, suffix))
  {
    hide IsName;
    hide IsTxid;
    hide Labels;
    var parts := [name, suffix.Label()];
    NameIsUndotted(name);
    SuffixIsUndotted(suffix);
    assert parts[1..] == [suffix.Label()];
    LabelsOfJoined(parts);
  }

  /** A name, a suffix and the portal's domain are the site of that name and suffix. */
  lemma SiteIsClassified(name: seq<byte>, suffix: Suffix, portal: Portal)
    requires IsName(name)
    ensures Classify(name + [DOT] + suffix.Label() + [DOT] + portal.domain, portal) == Ok(SiteHost(name, suffix))
  {
    hide SiteOf;
    hide IsName;
    var site := name + [DOT] + suffix.Label();
    var host := site + [DOT] + portal.domain;
    NameDotSuffix(name, suffix);
    assert host[|host| - |portal.domain|..] == portal.domain;
    assert host[..|host| - |portal.domain|] == site + [DOT];
    assert (site + [DOT])[|site|..] == [DOT];
    assert (site + [DOT])[..|site|] == site;
  }

  // ----- the authority of a portal

  /** Lowercase letters, digits, hyphens and dots. */
  predicate HostBytes(s: seq<byte>) {
    forall i :: 0 <= i < |s| ==> IsHostByte(s[i]) || s[i] == DOT
  }

  lemma {:induction false} DomainBytes(domain: seq<byte>)
    requires DnsLabels(domain)
    ensures HostBytes(domain)
    decreases |domain|
  {
    var k := IndexOf(domain, DOT);
    if k == |domain| {
      assert domain in Labels(domain);
    } else {
      var rest := Labels(domain[k + 1..]);
      assert Labels(domain)[0] == domain[..k];
      assert IsDnsLabel(domain[..k]);
      assert forall l :: l in rest ==> l in Labels(domain);
      DomainBytes(domain[k + 1..]);
      forall i | 0 <= i < |domain| ensures IsHostByte(domain[i]) || domain[i] == DOT {
        if i < k {
          assert domain[i] == domain[..k][i];
        } else if i > k {
          assert domain[i] == domain[k + 1..][i - k - 1];
        }
      }
    }
  }

  /** A 16-bit port has at most five digits. */
  lemma PortDigits(n: nat)
    requires n < 65536
    ensures |Decimal(n)| <= 5
  {
    DigitsGrow(n, 5);
  }

  function TenTo(k: nat): nat {
    if k == 0 then 1 else 10 * TenTo(k - 1)
  }

  lemma {:induction false} DigitsGrow(n: nat, k: nat)
    requires k > 0 && n < TenTo(k)
    ensures |Decimal(n)| <= k
    decreases k
  {
    if n >= 10 {
      DigitsGrow(n / 10, k - 1);
    }
  }

  /** What stands before the authority of a portal, without its port, is the whole host. */
  lemma PortIsCutOff(site: seq<byte>, domain: seq<byte>, port: PublicPort)
    requires HostBytes(site) && HostBytes(domain) && site + domain != []
    ensures WithoutPort(site + Authority(domain, port)) == Ok(site + domain)
  {
    hide LastIndexOf;
    hide CheckPort;
    hide HostBytes;
    hide Decimal;
    var host := site + domain;
    BytesOfBoth(site, domain);
    match port {
      case Default =>
        assert site + Authority(domain, port) == host;
        NoColon(host);
      case Explicit(n) =>
        PortDigits(n);
        assert site + Authority(domain, port) == host + [COLON] + Decimal(n);
        ColonFound(host, Decimal(n));
        PortAccepted(Decimal(n));
    }
  }

  lemma BytesOfBoth(site: seq<byte>, domain: seq<byte>)
    requires HostBytes(site) && HostBytes(domain)
    ensures HostBytes(site + domain)
  {}

  lemma NoColon(host: seq<byte>)
    requires HostBytes(host) && host != []
    ensures !StartsWith(host, [OPEN]) && LastIndexOf(host, COLON) == |host|
  {
    hide LastIndexOf;
    assert IsHostByte(host[0]) || host[0] == DOT;
  }

  lemma ColonFound(host: seq<byte>, digits: seq<byte>)
    requires HostBytes(host) && host != [] && forall i :: 0 <= i < |digits| ==> IsDigit(digits[i])
    ensures var header := host + [COLON] + digits;
            !StartsWith(header, [OPEN]) && LastIndexOf(header, COLON) == |host|
            && header[..|host|] == host && header[|host| + 1..] == digits
  {
    hide LastIndexOf;
    var header := host + [COLON] + digits;
    assert header[0] == host[0] && (IsHostByte(host[0]) || host[0] == DOT);
    assert header[|host|] == COLON;
    assert forall i :: |host| < i < |header| ==> header[i] == digits[i - |host| - 1];
  }

  lemma PortAccepted(digits: seq<byte>)
    requires 1 <= |digits| <= 5 && forall i :: 0 <= i < |digits| ==> IsDigit(digits[i])
    ensures CheckPort(digits, Some(digits)) == None
  {}

  lemma HostIsGraphic(host: seq<byte>)
    requires HostBytes(host)
    ensures forall i :: 0 <= i < |host| ==> 33 <= host[i] <= 126
  {}

  // ----- a link, read the way a browser and the gateway read it

  predicate EndsHost(b: byte) {
    b == SLASH || b == QUESTION || b == HASH
  }

  /** What stands before the first of `/`, `?` and `#`, and the rest. */
  ghost predicate SplitsAt(s: seq<byte>, host: seq<byte>, tail: seq<byte>) {
    && s == host + tail
    && (forall i :: 0 <= i < |host| ==> !EndsHost(host[i]))
    && (tail != [] ==> EndsHost(tail[0]))
  }

  lemma SplitsOnce(s: seq<byte>, host: seq<byte>, tail: seq<byte>, host2: seq<byte>, tail2: seq<byte>)
    requires SplitsAt(s, host, tail) && SplitsAt(s, host2, tail2)
    ensures host == host2 && tail == tail2
  {
    NotLonger(s, host, tail, host2, tail2);
    NotLonger(s, host2, tail2, host, tail);
    assert host == s[..|host|] && tail == s[|host|..];
    assert host2 == s[..|host2|] && tail2 == s[|host2|..];
  }

  lemma NotLonger(s: seq<byte>, host: seq<byte>, tail: seq<byte>, host2: seq<byte>, tail2: seq<byte>)
    requires SplitsAt(s, host, tail) && SplitsAt(s, host2, tail2)
    ensures |host2| <= |host|
  {
    assert forall i :: 0 <= i < |host2| ==> s[i] == host2[i];
    assert |s| == |host| + |tail|;
    assert tail != [] ==> s[|host|] == tail[0];
  }

  lemma RunSplits(s: seq<byte>)
    ensures var cut := HtmlScan.Run(s, 0, HtmlScan.HostByte);
            cut <= |s| && SplitsAt(s, s[..cut], s[cut..])
  {
    hide HtmlScan.Run;
    var cut := HtmlScan.Run(s, 0, HtmlScan.HostByte);
    assert s == s[..cut] + s[cut..];
  }

  /** The parts of a link that a browser sends: the authority to connect to, and the path. */
  datatype Parsed = Parsed(authority: seq<byte>, path: seq<byte>)

  ghost predicate ParsesAs(link: seq<byte>, scheme: seq<byte>, p: Parsed) {
    && StartsWith(link, scheme + [COLON, SLASH, SLASH])
    && SplitsAt(link[|scheme| + 3..], p.authority, p.path)
  }

  /** The path that a tail gives: `/` in front when it is missing. */
  function PathOf(tail: seq<byte>): seq<byte> {
    if tail != [] && tail[0] == SLASH then tail else [SLASH] + tail
  }

  /** The `urma://` links that name a site which this portal serves. */
  predicate NamesSite(labels: seq<seq<byte>>, suffix: Suffix, portal: Portal)
    requires |labels| >= 2
  {
    && labels[|labels| - 1] == suffix.Label()
    && IsName(labels[|labels| - 2])
    && (|labels| == 2 || (|labels| == 3 && IsTxid(labels[0]) && suffix in portal.registries && portal.registries[suffix] == labels[0]))
  }

  /** The `urma://` links that name something which this portal does not serve. */
  predicate NamesOther(labels: seq<seq<byte>>, suffix: Suffix, portal: Portal)
    requires |labels| >= 2
  {
    && labels[|labels| - 1] == suffix.Label()
    && (if |labels| == 2 then IsTxid(labels[0])
        else |labels| == 3 && IsTxid(labels[0]) && IsName(labels[1]) && !(suffix in portal.registries && portal.registries[suffix] == labels[0]))
  }

  predicate Clean(host: seq<byte>, tail: seq<byte>) {
    && (forall i :: 0 <= i < |host| ==> IsHostByte(host[i]) || host[i] == DOT)
    && (forall i :: 0 <= i < |tail| ==> tail[i] > 32 && tail[i] != 127 && tail[i] != 92)
    && [] !in Labels(host)
  }

  // ----- links are read back

  lemma MarkIs()
    ensures AUTHORITY_MARK == [COLON, SLASH, SLASH]
  {}

  lemma NoHostEnd(s: seq<byte>)
    requires HostBytes(s)
    ensures forall i :: 0 <= i < |s| ==> !EndsHost(s[i])
  {}

  lemma AuthorityHasNoEnd(domain: seq<byte>, port: PublicPort)
    requires HostBytes(domain)
    ensures forall i :: 0 <= i < |Authority(domain, port)| ==> !EndsHost(Authority(domain, port)[i])
  {
    hide Decimal;
  }

  /** A link written as scheme, site, authority and path parses into those. */
  lemma WrittenParses(scheme: LinkScheme, site: seq<byte>, authority: seq<byte>, path: seq<byte>)
    requires (forall i :: 0 <= i < |site| ==> !EndsHost(site[i])) && (forall i :: 0 <= i < |authority| ==> !EndsHost(authority[i]))
    requires path != [] && path[0] == SLASH
    ensures ParsesAs(scheme.Label() + AUTHORITY_MARK + (site + authority) + path, scheme.Label(), Parsed(site + authority, path))
  {
    var s := scheme.Label() + AUTHORITY_MARK;
    var link := s + (site + authority) + path;
    MarkIs();
    assert link[..|s|] == s && link[|s|..] == (site + authority) + path;
  }

  lemma SitePartIsHost(name: seq<byte>, suffix: Suffix)
    requires IsName(name)
    ensures HostBytes(name + [DOT] + suffix.Label() + [DOT])
  {}

  /** The parts of a site link, and where the gateway leads them. */
  lemma SiteLinkIsRead(domain: seq<byte>, port: PublicPort, portal: Portal, name: seq<byte>, suffix: Suffix, tail: seq<byte>)
    requires DnsLabels(domain) && portal.domain == domain && portal.authority == Authority(domain, port)
    requires IsName(name) && (tail != [] ==> EndsHost(tail[0]))
    ensures var host := name + [DOT] + suffix.Label() + [DOT] + domain;
            var parsed := Parsed(name + [DOT] + suffix.Label() + [DOT] + portal.authority, PathOf(tail));
            && ParsesAs(SiteLink(portal, name, suffix, tail), portal.scheme.Label(), parsed)
            && WithoutPort(parsed.authority) == Ok(host)
            && Classify(host, portal) == Ok(SiteHost(name, suffix))
            && (HeaderHost(parsed.authority).Ok? <==> |host| <= MAX_HOST_BYTES)
  {
    hide Classify;
    hide WithoutPort;
    hide DnsLabels;
    hide HostBytes;
    hide IsName;
    hide ParsesAs;
    hide Authority;
    var site := name + [DOT] + suffix.Label() + [DOT];
    SitePartIsHost(name, suffix);
    DomainBytes(domain);
    SiteIsClassified(name, suffix, portal);
    PortIsCutOff(site, domain, port);
    BytesOfBoth(site, domain);
    HostIsGraphic(site + domain);
    NoHostEnd(site);
    AuthorityHasNoEnd(domain, port);
    WrittenParses(portal.scheme, site, portal.authority, PathOf(tail));
    WrittenAlike(portal, name, suffix, tail);
  }

  lemma Group(a: seq<byte>, b: seq<byte>, c: seq<byte>, d: seq<byte>, e: seq<byte>, f: seq<byte>)
    ensures a + b + c + d + e + f == a + (b + c + d + e + f)
  {}

  lemma Slashed(tail: seq<byte>, before: seq<byte>)
    ensures before + (if StartsWith(tail, [SLASH]) then [] else [SLASH]) + tail == before + PathOf(tail)
  {
    assert StartsWith(tail, [SLASH]) <==> tail != [] && tail[0] == SLASH;
    assert before + [] == before;
    assert before + [SLASH] + tail == before + ([SLASH] + tail);
  }

  lemma WrittenAlike(portal: Portal, name: seq<byte>, suffix: Suffix, tail: seq<byte>)
    ensures var site := name + [DOT] + suffix.Label() + [DOT];
            SiteLink(portal, name, suffix, tail) == portal.scheme.Label() + AUTHORITY_MARK + (site + portal.authority) + PathOf(tail)
  {
    hide PathOf;
    hide StartsWith;
    hide Suffix.Label;
    hide LinkScheme.Label;
    Group(portal.scheme.Label() + AUTHORITY_MARK, name, [DOT], suffix.Label(), [DOT], portal.authority);
    Slashed(tail, portal.SiteOrigin(name, suffix));
  }

  // ----- every rewritten link

  /** The two parts of the candidate after `urma://`: its host, and its tail from the first `/`, `?` or `#`. */
  ghost predicate Candidate(candidate: seq<byte>, host: seq<byte>, tail: seq<byte>) {
    StartsWith(candidate, SCHEME) && SplitsAt(candidate[7..], host, tail)
  }

  lemma CandidateParts(candidate: seq<byte>, host: seq<byte>, tail: seq<byte>)
    requires Candidate(candidate, host, tail)
    ensures var rest := candidate[|SCHEME|..];
            var cut := HtmlScan.Run(rest, 0, HtmlScan.HostByte);
            cut <= |rest| && rest[..cut] == host && rest[cut..] == tail
  {
    hide HtmlScan.Run;
    hide SplitsAt;
    var rest := candidate[|SCHEME|..];
    var cut := HtmlScan.Run(rest, 0, HtmlScan.HostByte);
    RunSplits(rest);
    SplitsOnce(rest, host, tail, rest[..cut], rest[cut..]);
  }

  /** What `target` makes of the labels of a host. */
  lemma TargetByLabels(host: seq<byte>, portal: Portal)
    ensures var labels := Labels(host);
            && (TargetOf(host, portal).Site? <==>
                  && [] !in labels && HostBytes(host) && |labels| >= 2
                  && exists suffix: Suffix :: NamesSite(labels, suffix, portal))
            && (TargetOf(host, portal).Unserved? <==>
                  && [] !in labels && HostBytes(host) && |labels| >= 2
                  && exists suffix: Suffix :: NamesOther(labels, suffix, portal))
            && (TargetOf(host, portal).Site? ==>
                  && TargetOf(host, portal).name == labels[|labels| - 2]
                  && TargetOf(host, portal).suffix.Label() == labels[|labels| - 1])
  {
    hide IsTxid;
    hide IsName;
    hide Labels;
    var labels := Labels(host);
    var suffix := ParseSuffix(labels[|labels| - 1]);
    assert forall t: Suffix :: suffix == Some(t) <==> labels[|labels| - 1] == t.Label();
    assert forall i :: 0 <= i < |labels| - 1 ==> labels[..|labels| - 1][i] == labels[i];
    if |labels| >= 2 && suffix.Some? {
      NotATxid(labels[0]);
      assert suffix.value.Label() == labels[|labels| - 1];
      assert TargetOf(host, portal).Site? ==> NamesSite(labels, suffix.value, portal);
      assert TargetOf(host, portal).Unserved? ==> NamesOther(labels, suffix.value, portal);
    }
  }

  lemma NotATxid(part: seq<byte>)
    ensures !(IsName(part) && IsTxid(part))
  {}

  ghost predicate SomeSite(labels: seq<seq<byte>>, portal: Portal) {
    |labels| >= 2 && exists suffix: Suffix :: NamesSite(labels, suffix, portal)
  }

  ghost predicate SomeOther(labels: seq<seq<byte>>, portal: Portal) {
    |labels| >= 2 && exists suffix: Suffix :: NamesOther(labels, suffix, portal)
  }

  /** Exactly the clean links are rewritten that name a site, served here or not. */
  lemma RewrittenIff(candidate: seq<byte>, host: seq<byte>, tail: seq<byte>, portal: Portal)
    requires Candidate(candidate, host, tail)
    ensures RewriteOf(candidate, portal).To? <==>
            Clean(host, tail) && (SomeSite(Labels(host), portal) || SomeOther(Labels(host), portal))
  {
    hide TargetOf;
    hide Labels;
    hide HtmlScan.Run;
    hide SiteLink;
    hide UnavailableLink;
    hide SplitsAt;
    hide NamesSite;
    hide NamesOther;
    CandidateParts(candidate, host, tail);
    TargetByLabels(host, portal);
  }

  lemma RewrittenToSite(candidate: seq<byte>, host: seq<byte>, tail: seq<byte>, suffix: Suffix, portal: Portal)
    requires Candidate(candidate, host, tail) && Clean(host, tail)
    requires |Labels(host)| >= 2 && NamesSite(Labels(host), suffix, portal)
    ensures RewriteOf(candidate, portal) == To(SiteLink(portal, Labels(host)[|Labels(host)| - 2], suffix, tail))
  {
    hide TargetOf;
    hide Labels;
    hide HtmlScan.Run;
    hide SiteLink;
    hide UnavailableLink;
    hide SplitsAt;
    CandidateParts(candidate, host, tail);
    TargetByLabels(host, portal);
    SameLabel(TargetOf(host, portal).suffix, suffix);
  }

  lemma SameLabel(a: Suffix, b: Suffix)
    ensures a.Label() == b.Label() ==> a == b
  {
    assert ParseSuffix(a.Label()) == Some(a);
    assert ParseSuffix(b.Label()) == Some(b);
  }

  /**
   The gateway reads its own links back. A clean link to a site that the portal serves is rewritten to a link
   whose host, without scheme and port, is the site of exactly the last two labels of the link's host, and
   whose path is the link's tail. The host header of that link is accepted exactly when the host fits.
   */
  lemma SiteLinksAreReadBack(domain: seq<byte>, scheme: LinkScheme, port: PublicPort, registries: map<Suffix, seq<byte>>,
                             candidate: seq<byte>, host: seq<byte>, tail: seq<byte>, suffix: Suffix) returns (p: Parsed)
    requires Create(domain, scheme, port, registries).Some?
    requires Candidate(candidate, host, tail) && Clean(host, tail)
    requires |Labels(host)| >= 2 && NamesSite(Labels(host), suffix, Create(domain, scheme, port, registries).value)
    ensures var portal, name := Create(domain, scheme, port, registries).value, Labels(host)[|Labels(host)| - 2];
            && RewriteOf(candidate, portal).To? && ParsesAs(RewriteOf(candidate, portal).text, scheme.Label(), p)
            && p.path == PathOf(tail)
            && WithoutPort(p.authority).Ok? && Classify(WithoutPort(p.authority).value, portal) == Ok(SiteHost(name, suffix))
            && (HeaderHost(p.authority).Ok? <==> |name| + |suffix.Label()| + 2 + |domain| <= MAX_HOST_BYTES)
  {
    hide RewriteOf;
    hide Labels;
    hide Candidate;
    hide Clean;
    hide ParsesAs;
    hide WithoutPort;
    hide Classify;
    hide HeaderHost;
    hide IsName;
    hide SiteLink;
    var portal, name := Create(domain, scheme, port, registries).value, Labels(host)[|Labels(host)| - 2];
    TailStarts(candidate, host, tail);
    RewrittenToSite(candidate, host, tail, suffix, portal);
    SiteLinkIsRead(domain, port, portal, name, suffix, tail);
    p := Parsed(name + [DOT] + suffix.Label() + [DOT] + portal.authority, PathOf(tail));
  }

  lemma TailStarts(candidate: seq<byte>, host: seq<byte>, tail: seq<byte>)
    requires Candidate(candidate, host, tail)
    ensures tail != [] ==> EndsHost(tail[0])
  {}

  /** Under a domain that leaves no room for the shortest name and suffix, no site link of the portal is accepted as a host. */
  lemma LongDomainsServeNoSite(domain: seq<byte>, port: PublicPort, portal: Portal, name: seq<byte>, suffix: Suffix)
    requires DnsLabels(domain) && portal.domain == domain && portal.authority == Authority(domain, port)
    requires IsName(name) && |domain| > 247
    ensures HeaderHost(name + [DOT] + suffix.Label() + [DOT] + portal.authority) == Err(Malformed)
  {
    hide DnsLabels;
    hide HostBytes;
    hide IsName;
    hide Authority;
    hide WithoutPort;
    NameIsUndotted(name);
    ShortestSuffix(suffix);
    SitePartIsHost(name, suffix);
    DomainBytes(domain);
    PortIsCutOff(name + [DOT] + suffix.Label() + [DOT], domain, port);
  }

  lemma ShortestSuffix(suffix: Suffix)
    ensures |suffix.Label()| >= 3
  {}

  /** A clean link to anything else leads to the portal itself, with the whole link to be shown there. */
  lemma OtherLinksAreReadBack(domain: seq<byte>, scheme: LinkScheme, port: PublicPort, registries: map<Suffix, seq<byte>>,
                              candidate: seq<byte>, host: seq<byte>, tail: seq<byte>) returns (p: Parsed, shown: seq<byte>)
    requires Create(domain, scheme, port, registries).Some?
    requires Candidate(candidate, host, tail) && Clean(host, tail)
    requires SomeOther(Labels(host), Create(domain, scheme, port, registries).value)
    ensures var portal := Create(domain, scheme, port, registries).value;
            && RewriteOf(candidate, portal).To? && ParsesAs(RewriteOf(candidate, portal).text, scheme.Label(), p)
            && WithoutPort(p.authority).Ok? && Classify(WithoutPort(p.authority).value, portal) == Ok(Apex)
            && HeaderHost(p.authority).Ok?
            && p.path == [47, 117, 110, 97, 118, 97, 105, 108, 97, 98, 108, 101, 63, 117, 61] + shown  // "/unavailable?u="
            && Unpercent(shown) == candidate
  {
    hide RewriteOf;
    hide Labels;
    hide Candidate;
    hide Clean;
    hide ParsesAs;
    hide WithoutPort;
    hide IsName;
    hide Percent;
    hide Unpercent;
    hide DnsLabels;
    hide Authority;
    hide HostBytes;
    var portal := Create(domain, scheme, port, registries).value;
    shown := Percent(candidate);
    p := Parsed([] + portal.authority, UNAVAILABLE_PATH + shown);
    RewrittenToOther(candidate, host, tail, portal);
    UnavailableRoundTrip(candidate);
    DomainBytes(domain);
    HostIsGraphic(domain);
    NothingBefore(domain, port);
    AuthorityHasNoEnd(domain, port);
    WrittenParses(scheme, [], portal.authority, UNAVAILABLE_PATH + shown);
    assert [] + domain == domain && [] + portal.authority == portal.authority;
    assert portal.scheme.Label() + AUTHORITY_MARK + portal.authority + UNAVAILABLE_PATH + shown
        == portal.scheme.Label() + AUTHORITY_MARK + portal.authority + (UNAVAILABLE_PATH + shown);
  }

  lemma NothingBefore(domain: seq<byte>, port: PublicPort)
    requires HostBytes(domain) && domain != []
    ensures WithoutPort([] + Authority(domain, port)) == Ok(domain)
  {
    hide WithoutPort;
    hide Authority;
    assert [] + domain == domain;
    PortIsCutOff([], domain, port);
  }

  lemma RewrittenToOther(candidate: seq<byte>, host: seq<byte>, tail: seq<byte>, portal: Portal)
    requires Candidate(candidate, host, tail) && Clean(host, tail) && SomeOther(Labels(host), portal)
    ensures RewriteOf(candidate, portal) == To(UnavailableLink(portal, candidate))
  {
    hide TargetOf;
    hide Labels;
    hide HtmlScan.Run;
    hide SiteLink;
    hide UnavailableLink;
    hide SplitsAt;
    hide NamesOther;
    CandidateParts(candidate, host, tail);
    TargetByLabels(host, portal);
  }
}
