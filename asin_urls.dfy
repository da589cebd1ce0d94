/** From an ASIN to the product page request (`_generate_asin_url`) and back
    from a response URL to the ASIN (`_extract_asin`). */
module AsinUrls {
  import opened Wrappers

  /** What the spider hands to the crawler: the URL and its `Referer` header. */
  datatype Request = Request(url: string, referer: string)

  const Scheme: string := "https://"
  const DetailPath: string := "/dp/"
  const SearchPath: string := "/s/ref=nb_sb_noss_2?url=search-alias=aps&field-keywords="

  /** `_generate_asin_url(asin, marketplace)`, with the marketplace-to-host
      table passed in (see `GenerateAsinUrlShape`). */
  function GenerateAsinUrl(asin: string, marketplace: string, hosts: map<string, string>): Request
    requires marketplace in hosts
  {
    var base := Scheme + hosts[marketplace];
    var url := base + DetailPath + asin;
    var referer := base + SearchPath + asin;
    Request(url, referer)
  }

  /** The URL is the product page `https://<host>/dp/<asin>` and the referer
      the search page for the ASIN on the same host: both start with
      `https://<host>` followed by their fixed path, and both end with the
      ASIN. */
  lemma GenerateAsinUrlShape(asin: string, marketplace: string, hosts: map<string, string>)
    requires marketplace in hosts
    ensures var r := GenerateAsinUrl(asin, marketplace, hosts);
      && Scheme + hosts[marketplace] + DetailPath <= r.url
      && Scheme + hosts[marketplace] + SearchPath <= r.referer
      && |r.url| == |Scheme + hosts[marketplace] + DetailPath| + |asin|
      && |r.referer| == |Scheme + hosts[marketplace] + SearchPath| + |asin|
      && r.url[|r.url| - |asin|..] == asin
      && r.referer[|r.referer| - |asin|..] == asin
  {
  }

  /** Reads the ASIN back from a product page URL of the given host: what
      follows `https://<host>/dp/`, or nothing for any other URL. */
  function DetailUrlAsin(url: string, host: string): (r: Option<string>)
    ensures r.Some? <==> Scheme + host + DetailPath <= url
    ensures r.Some? ==> url == Scheme + host + DetailPath + r.value
  {
    var prefix := Scheme + host + DetailPath;
    if prefix <= url then Some(url[|prefix|..]) else None
  }

  /** Round trip: the ASIN is recovered from the generated URL. */
  lemma DetailUrlRoundTrip(asin: string, marketplace: string, hosts: map<string, string>)
    requires marketplace in hosts
    ensures DetailUrlAsin(GenerateAsinUrl(asin, marketplace, hosts).url, hosts[marketplace]) == Some(asin)
  {
  }

  /** Distinct ASINs on one marketplace give distinct requests, in both the
      URL and the referer. */
  lemma GenerateAsinUrlInjective(a: string, b: string, marketplace: string, hosts: map<string, string>)
    requires marketplace in hosts
    requires a != b
    ensures GenerateAsinUrl(a, marketplace, hosts).url != GenerateAsinUrl(b, marketplace, hosts).url
    ensures GenerateAsinUrl(a, marketplace, hosts).referer != GenerateAsinUrl(b, marketplace, hosts).referer
  {
    var base := Scheme + hosts[marketplace];
    var ra := GenerateAsinUrl(a, marketplace, hosts);
    var rb := GenerateAsinUrl(b, marketplace, hosts);
    assert ra.url == base + DetailPath + a && rb.url == base + DetailPath + b;
    assert ra.referer == base + SearchPath + a && rb.referer == base + SearchPath + b;
    assert ra.url[|base + DetailPath|..] == a && rb.url[|base + DetailPath|..] == b;
    assert ra.referer[|base + SearchPath|..] == a && rb.referer[|base + SearchPath|..] == b;
  }

  /** The fixed text that `_extract_asin` looks for, `www.amazon.com/dp/`. */
  const Marker: string := "www.amazon.com/dp/"

  /** A character of the class `[0-9A-Z]`. */
  predicate IsAsinChar(c: char) {
    '0' <= c <= '9' || 'A' <= c <= 'Z'
  }

  /** The pattern `.*www\.amazon\.com\/dp\/([0-9A-Z]{10}).*` matches `url`
      from its start with the leading `.*` taking the first `k` characters:
      these hold no newline (`.` does not match one), the marker follows,
      and then ten characters of `[0-9A-Z]`. The trailing `.*` always
      matches, possibly empty. */
  predicate MatchesAt(url: string, k: nat) {
    k + |Marker| + 10 <= |url|
    && url[k..k + |Marker|] == Marker
    && (forall i :: k + |Marker| <= i < k + |Marker| + 10 ==> IsAsinChar(url[i]))
    && '\n' !in url[..k]
  }

  /** The greatest `j <= k` at which the pattern matches, if any: the leading
      `.*` is greedy, so Python's matcher settles on the longest prefix. */
  function LastMatchAtOrBelow(url: string, k: nat): (r: Option<nat>)
    ensures r.Some? ==> r.value <= k && MatchesAt(url, r.value)
    ensures r.Some? ==> forall j :: r.value < j <= k ==> !MatchesAt(url, j)
    ensures r.None? ==> forall j :: 0 <= j <= k ==> !MatchesAt(url, j)
    decreases k
  {
    if MatchesAt(url, k) then Some(k)
    else if k == 0 then None
    else LastMatchAtOrBelow(url, k - 1)
  }

  /** `_extract_asin(response)` on `response.url`: the empty string when the
      pattern does not match; otherwise the group, ten characters of
      `[0-9A-Z]` found right after the rightmost marker that is followed by
      such ten characters and preceded by no newline. */
  function ExtractAsin(url: string): (r: string)
    ensures r == [] <==> forall k :: 0 <= k <= |url| ==> !MatchesAt(url, k)
    ensures r != [] ==> |r| == 10 && forall i :: 0 <= i < 10 ==> IsAsinChar(r[i])
    ensures r != [] ==> exists k :: 0 <= k <= |url| && MatchesAt(url, k) && r == url[k + |Marker|..k + |Marker| + 10]
                                    && forall j :: k < j <= |url| ==> !MatchesAt(url, j)
  {
    match LastMatchAtOrBelow(url, |url|)
    case None => []
    case Some(k) =>
      var r := url[k + |Marker|..k + |Marker| + 10];
      assert forall i :: 0 <= i < 10 ==> r[i] == url[k + |Marker| + i];
      r
  }

  /** In a URL that starts with `https://`, no match starts inside the
      scheme: none of its characters is the `w` the marker begins with. */
  lemma NoMatchBeforeHost(url: string, k: nat)
    requires Scheme <= url && k < |Scheme|
    ensures !MatchesAt(url, k)
  {
    assert url[k] == Scheme[k] && Scheme[k] != Marker[0];
    if k + |Marker| <= |url| {
      assert url[k..k + |Marker|][0] == url[k];
    }
  }

  /** A URL made of the scheme, the marker and ten characters of
      `[0-9A-Z]` yields these ten characters: the only match is the one right
      after the scheme. */
  lemma ExtractAfterScheme(url: string, asin: string)
    requires url == Scheme + Marker + asin
    requires |asin| == 10 && forall i :: 0 <= i < 10 ==> IsAsinChar(asin[i])
    ensures ExtractAsin(url) == asin
  {
    assert url[|Scheme|..|Scheme| + |Marker|] == Marker;
    assert url[..|Scheme|] == Scheme;
    assert MatchesAt(url, |Scheme|);
    forall k | 0 <= k < |Scheme| ensures !MatchesAt(url, k) {
      NoMatchBeforeHost(url, k);
    }
    var r := ExtractAsin(url);
    var k :| 0 <= k <= |url| && MatchesAt(url, k) && r == url[k + |Marker|..k + |Marker| + 10];
    assert k == |Scheme|;
    assert url[|Scheme| + |Marker|..] == asin;
  }

  /** The product page URL of the example yields its ASIN. */
  lemma ExtractExample()
    ensures ExtractAsin("https://www.amazon.com/dp/B000123456") == "B000123456"
  {
    var url := "https://www.amazon.com/dp/B000123456";
    assert url == Scheme + Marker + "B000123456";
    ExtractAfterScheme(url, "B000123456");
  }

  /** Round trip for the host the extraction is written for: the ASIN of a
      request built for a marketplace served by `www.amazon.com` is found
      again in its URL, when the ASIN is ten characters of `[0-9A-Z]`. */
  lemma ExtractGeneratedUrl(asin: string, marketplace: string, hosts: map<string, string>)
    requires marketplace in hosts && hosts[marketplace] == "www.amazon.com"
    requires |asin| == 10 && forall i :: 0 <= i < 10 ==> IsAsinChar(asin[i])
    ensures ExtractAsin(GenerateAsinUrl(asin, marketplace, hosts).url) == asin
  {
    var url := GenerateAsinUrl(asin, marketplace, hosts).url;
    assert url == Scheme + Marker + asin;
    ExtractAfterScheme(url, asin);
  }

  /** A valid ASIN with a lower-case check character `x` (the validator's
      `[0-9Xx]` admits it) is not found again in its own URL, because the
      extraction class `[0-9A-Z]` excludes `x`: the parsed record's `asin`
      comes out empty. */
  lemma LowercaseCheckCharacterNotExtracted(marketplace: string, hosts: map<string, string>)
    requires marketplace in hosts && hosts[marketplace] == "www.amazon.com"
    ensures ExtractAsin(GenerateAsinUrl("123456789x", marketplace, hosts).url) == ""
  {
    var url := GenerateAsinUrl("123456789x", marketplace, hosts).url;
    assert url == Scheme + Marker + "123456789x";
    assert |url| == |Scheme| + |Marker| + 10;
    assert url[|Scheme| + |Marker| + 9] == 'x';
    forall k | 0 <= k <= |url| ensures !MatchesAt(url, k) {
      if k < |Scheme| {
        NoMatchBeforeHost(url, k);
      }
    }
  }

  /** The marker is fixed to `www.amazon.com`: the product page of another
      marketplace's host yields the empty string. */
  lemma OtherHostNotExtracted(marketplace: string, hosts: map<string, string>)
    requires marketplace in hosts && hosts[marketplace] == "www.amazon.co.uk"
    ensures ExtractAsin(GenerateAsinUrl("B000123456", marketplace, hosts).url) == ""
  {
    var url := GenerateAsinUrl("B000123456", marketplace, hosts).url;
    assert url == Scheme + "www.amazon.co.uk" + DetailPath + "B000123456";
    assert |url| == 38;
    assert url[8..11] == "www" && url[11] == '.' && url[22] == 'u';
    forall k | 0 <= k <= |url| ensures !MatchesAt(url, k) {
      if k < |Scheme| {
        NoMatchBeforeHost(url, k);
      } else if k == 8 {
        assert Marker[14] == '/' && url[22] == 'u';
        assert url[k..k + |Marker|][14] == url[22];
      } else if k == 9 {
        assert Marker[2] == 'w' && url[11] == '.';
        assert url[k..k + |Marker|][2] == url[11];
      } else if k == 10 {
        assert Marker[1] == 'w' && url[11] == '.';
        assert url[k..k + |Marker|][1] == url[11];
      }
    }
  }
}
