/**
 What becomes of one `urma://` link (`rewrite` and `target` in `gateway_links.rs`): it is left alone,
 turned into a site of the portal, or into the page that says it is unavailable.
 */
module LinkRewrite {
  import opened Bytes
  import HtmlScan
  import opened PortalHost

  const SCHEME: seq<byte> := [117, 114, 109, 97, 58, 47, 47]  // "urma://"

  datatype Rewrite = Keep | To(text: seq<byte>)

  datatype Target = Site(name: seq<byte>, suffix: Suffix) | Unserved | Refused

  predicate Canonical(host: seq<byte>) {
    && (forall i :: 0 <= i < |host| ==> IsHostByte(host[i]) || host[i] == DOT)
    && [] !in Labels(host)
  }

  function TargetOf(host: seq<byte>, portal: Portal): (t: Target)
    ensures t.Site? ==> IsName(t.name)
  {
    if !Canonical(host) then Refused
    else
      var labels := Labels(host);
      var prefix := labels[..|labels| - 1];
      match ParseSuffix(labels[|labels| - 1])
      case None => Refused
      case Some(suffix) =>
        if |prefix| == 1 then
          if IsTxid(prefix[0]) then Unserved
          else if IsName(prefix[0]) then Site(prefix[0], suffix)
          else Refused
        else if |prefix| == 2 && IsTxid(prefix[0]) then
          if !IsName(prefix[1]) then Refused
          else if portal.IsRegistry(suffix, prefix[0]) then Site(prefix[1], suffix)
          else Unserved
        else Refused
  }

  function SiteLink(portal: Portal, name: seq<byte>, suffix: Suffix, tail: seq<byte>): seq<byte> {
    portal.SiteOrigin(name, suffix) + (if StartsWith(tail, [SLASH]) then [] else [SLASH]) + tail
  }

  predicate PlainTail(tail: seq<byte>) {
    forall i :: 0 <= i < |tail| ==> tail[i] > 32 && tail[i] != 127 && tail[i] != 92
  }

  function RewriteOf(candidate: seq<byte>, portal: Portal): (r: Rewrite)
    ensures r.To? ==> StartsWith(candidate, SCHEME)
  {
    if !StartsWith(candidate, SCHEME) then Keep
    else
      var rest := candidate[|SCHEME|..];
      var cut := HtmlScan.Run(rest, 0, HtmlScan.HostByte);
      var host, tail := rest[..cut], rest[cut..];
      if !PlainTail(tail) then Keep
      else match TargetOf(host, portal)
           case Site(name, suffix) => To(SiteLink(portal, name, suffix, tail))
           case Unserved => To(UnavailableLink(portal, candidate))
           case Refused => Keep
  }

  /** Every byte of `text` is safe or already stood in `candidate`. */
  predicate NoNewBytes(text: seq<byte>, candidate: seq<byte>) {
    forall i :: 0 <= i < |text| ==> Safe(text[i]) || text[i] in candidate
  }

  /**
   Replacement text starts with `h`, brings no byte that could end its slot, and is not itself a
   link to rewrite.
   */
  lemma RewriteIsHarmless(candidate: seq<byte>, portal: Portal)
    requires portal.Valid()
    requires RewriteOf(candidate, portal).To?
    ensures var text := RewriteOf(candidate, portal).text;
            && |text| > 0 && text[0] == 104
            && |candidate| >= 7 && candidate[0] == 117
            && NoNewBytes(text, candidate)
            && RewriteOf(text, portal) == Keep
  {
    hide TargetOf;
    hide PlainTail;
    hide HtmlScan.Run;
    hide HtmlScan.AllAccepted;
    hide NoNewBytes;
    hide SiteLink;
    hide UnavailableLink;
    hide IsName;
    var rest := candidate[|SCHEME|..];
    var cut := HtmlScan.Run(rest, 0, HtmlScan.HostByte);
    var tail := rest[cut..];
    var text := RewriteOf(candidate, portal).text;
    assert candidate[0] == candidate[..7][0] == 117;
    match TargetOf(rest[..cut], portal) {
      case Site(name, suffix) =>
        assert tail == candidate[|SCHEME| + cut..];
        SiteLinkIsHarmless(portal, name, suffix, candidate, |SCHEME| + cut);
      case Unserved =>
        UnavailableIsHarmless(portal, candidate);
      case Refused =>
    }
    HttpIsKept(text, portal);
  }

  lemma SiteLinkIsHarmless(portal: Portal, name: seq<byte>, suffix: Suffix, candidate: seq<byte>, cut: nat)
    requires portal.Valid() && IsName(name) && cut <= |candidate|
    ensures var text := SiteLink(portal, name, suffix, candidate[cut..]);
            |text| > 0 && text[0] == 104 && NoNewBytes(text, candidate)
  {
    var origin, tail := portal.SiteOrigin(name, suffix), candidate[cut..];
    assert AllSafe(origin);
    var text := SiteLink(portal, name, suffix, tail);
    forall i | 0 <= i < |text| ensures Safe(text[i]) || text[i] in candidate {
      if i >= |text| - |tail| {
        assert text[i] == tail[i - (|text| - |tail|)] == candidate[cut + (i - (|text| - |tail|))];
      }
    }
  }

  lemma UnavailableIsHarmless(portal: Portal, candidate: seq<byte>)
    requires portal.Valid()
    ensures var text := UnavailableLink(portal, candidate);
            |text| > 0 && text[0] == 104 && NoNewBytes(text, candidate)
  {
    assert AllSafe(UnavailableLink(portal, candidate));
  }

  lemma HttpIsKept(text: seq<byte>, portal: Portal)
    requires |text| > 0 && text[0] == 104
    ensures RewriteOf(text, portal) == Keep
  {
    assert |text| >= 7 ==> text[..7][0] == 104;
  }
}
