/**
 * The image proxy helpers: pictures served from the chat's own image hosts
 * are routed through a public image proxy, other URLs are used as they are.
 * `encodeURIComponent` is a parameter the model does not interpret.
 */
module ImageProxy {

  const WESERV_PREFIX: string := "https://images.weserv.nl/?url="
  const PIMG_PREFIX: string := "https://imageproxy.pimg.tw/resize?url="
  const IMAGE_HOST: string := "chat-img.jwznb.com"
  const IMAGE_HOST_2: string := "chat-img2.jwznb.com"

  predicate StartsWith(s: string, prefix: string)
  {
    |prefix| <= |s| && s[..|prefix|] == prefix
  }

  /** `sub` occurs in `s` starting at position `i`. */
  predicate OccursAt(s: string, sub: string, i: nat)
  {
    i + |sub| <= |s| && s[i..i + |sub|] == sub
  }

  /** `s.includes(sub)`, searching from each position in turn. */
  predicate Includes(s: string, sub: string)
    decreases |s|
  {
    StartsWith(s, sub) || (s != [] && Includes(s[1..], sub))
  }

  /** `includes` holds exactly when `sub` occurs at some position of `s`. */
  lemma {:induction false} IncludesIff(s: string, sub: string)
    ensures Includes(s, sub) <==> exists i: nat :: OccursAt(s, sub, i)
    decreases |s|
  {
    if StartsWith(s, sub) {
      assert OccursAt(s, sub, 0);
    } else if s != [] {
      IncludesIff(s[1..], sub);
      if Includes(s[1..], sub) {
        var i: nat :| OccursAt(s[1..], sub, i);
        assert s[i + 1..i + 1 + |sub|] == s[1..][i..i + |sub|];
        assert OccursAt(s, sub, i + 1);
      }
      if exists i: nat :: OccursAt(s, sub, i) {
        var i: nat :| OccursAt(s, sub, i);
        assert i != 0;
        assert s[1..][i - 1..i - 1 + |sub|] == s[i..i + |sub|];
        assert OccursAt(s[1..], sub, i - 1);
      }
    }
  }

  /** The URL names one of the chat's image hosts. */
  predicate NeedsProxy(url: string)
  {
    Includes(url, IMAGE_HOST) || Includes(url, IMAGE_HOST_2)
  }

  /** `getProxyImageUrl`. */
  function GetProxyImageUrl(originalUrl: string, encode: string -> string): (r: string)
    ensures originalUrl == "" ==> r == ""
    ensures originalUrl != "" && NeedsProxy(originalUrl) ==> r == WESERV_PREFIX + encode(originalUrl)
    ensures originalUrl != "" && !NeedsProxy(originalUrl) ==> r == originalUrl
  {
    if originalUrl == "" then ""
    else if NeedsProxy(originalUrl) then WESERV_PREFIX + encode(originalUrl)
    else originalUrl
  }

  /** The candidate list `getProxyImageUrls` returns, in order of preference. */
  function ProxyUrls(originalUrl: string, encode: string -> string): (r: seq<string>)
    ensures originalUrl == "" <==> r == []
    ensures r != [] ==> r[0] == originalUrl
    ensures |r| == 1 || |r| == 3 || r == []
  {
    if originalUrl == "" then []
    else if NeedsProxy(originalUrl) then
      [originalUrl, WESERV_PREFIX + encode(originalUrl), PIMG_PREFIX + encode(originalUrl)]
    else [originalUrl]
  }

  /** `getProxyImageUrls`: the original first, then the two proxies for the chat's own images. */
  method GetProxyImageUrls(originalUrl: string, encode: string -> string) returns (urls: seq<string>)
    ensures urls == ProxyUrls(originalUrl, encode)
  {
    if originalUrl == "" {
      return [];
    }
    urls := [];
    urls := urls + [originalUrl];
    if Includes(originalUrl, IMAGE_HOST) || Includes(originalUrl, IMAGE_HOST_2) {
      urls := urls + [WESERV_PREFIX + encode(originalUrl)];
      urls := urls + [PIMG_PREFIX + encode(originalUrl)];
    }
  }

  /**
   * The single URL agrees with the list: the original for other hosts, and
   * the first proxy of the list for the chat's own images.
   */
  lemma SingleUrlIsPreferredProxy(originalUrl: string, encode: string -> string)
    requires originalUrl != ""
    ensures NeedsProxy(originalUrl) ==> GetProxyImageUrl(originalUrl, encode) == ProxyUrls(originalUrl, encode)[1]
    ensures !NeedsProxy(originalUrl) ==> GetProxyImageUrl(originalUrl, encode) == ProxyUrls(originalUrl, encode)[0]
  {
  }

  /** Proxying applies exactly when one of the image hosts occurs in the URL. */
  lemma ProxiedExactlyForImageHosts(originalUrl: string, encode: string -> string)
    requires originalUrl != ""
    ensures |ProxyUrls(originalUrl, encode)| == 3 <==>
            (exists i: nat :: OccursAt(originalUrl, IMAGE_HOST, i)) || (exists i: nat :: OccursAt(originalUrl, IMAGE_HOST_2, i))
  {
    IncludesIff(originalUrl, IMAGE_HOST);
    IncludesIff(originalUrl, IMAGE_HOST_2);
  }
}
