/** The OIDC issuer URL of a hosted cluster: printing it, and reading bucket and region back. */
module IssuerUrl {

  // ---- strings ----

  function TrimPrefix(s: string, prefix: string): string {
    if prefix <= s then s[|prefix|..] else s
  }

  /** The first position at which `part` occurs, or -1. */
  function Index(s: string, part: string): (i: int)
    ensures -1 <= i && (i >= 0 ==> i + |part| <= |s|)
  {
    if part <= s then 0
    else if s == [] then -1
    else
      var i := Index(s[1..], part);
      if i < 0 then -1 else i + 1
  }

  // ---- printing and parsing ----

  function DiscoveryUrl(bucket: string, region: string, infraId: string): string {
    "https://" + bucket + ".s3." + region + ".amazonaws.com/" + infraId
  }

  function Trimmed(issuerUrl: string): string {
    TrimPrefix(TrimPrefix(issuerUrl, "https://"), "http://")
  }

  function ExtractBucket(issuerUrl: string): string {
    var trimmed := Trimmed(issuerUrl);
    var i := Index(trimmed, ".s3.");
    if i <= 0 then "" else trimmed[..i]
  }

  function ExtractRegion(issuerUrl: string): string {
    var trimmed := Trimmed(issuerUrl);
    var i := Index(trimmed, ".s3.");
    if i <= 0 then ""
    else
      var rest := trimmed[i + 4..];
      var j := Index(rest, ".amazonaws.com");
      if j <= 0 then "" else rest[..j]
  }

  // ---- round trip ----

  /** Followed by this mark, the text does not contain it any earlier, not even in overlap. */
  predicate EndsAt(text: string, mark: string) {
    Index(text + mark, mark) == |text|
  }

  predicate ReadableBucket(bucket: string) {
    !("http://" <= bucket) && EndsAt(bucket, ".s3.")
  }

  predicate ReadableRegion(region: string) {
    EndsAt(region, ".amazonaws.com")
  }

  /** `Index` finds the first position. */
  lemma {:induction false} IndexIsFirst(s: string, part: string)
    ensures var i := Index(s, part);
            && (i >= 0 ==> part <= s[i..])
            && (forall k {:trigger s[k..]} :: 0 <= k < (if i >= 0 then i else |s| + 1) ==> !(part <= s[k..]))
  {
    assert s[0..] == s;
    if part <= s || s == [] {
    } else {
      IndexIsFirst(s[1..], part);
      var i := Index(s, part);
      if i >= 0 {
        assert s[1..][i - 1..] == s[i..];
      }
      forall k {:trigger s[k..]} | 0 < k < (if i >= 0 then i else |s| + 1)
        ensures !(part <= s[k..])
      {
        assert s[1..][k - 1..] == s[k..];
      }
    }
  }

  /** A text ends at a mark exactly if the mark occurs at none of the text's own positions. */
  lemma EndsAtMeaning(text: string, mark: string)
    ensures EndsAt(text, mark) <==>
            forall k {:trigger (text + mark)[k..]} :: 0 <= k < |text| ==> !(mark <= (text + mark)[k..])
  {
    var s := text + mark;
    IndexIsFirst(s, mark);
    MarkIsFound(text, mark);
    var i := Index(s, mark);
    if i < |text| {
      assert mark <= s[i..];
    }
  }

  lemma PrefixIgnoresRest(s: string, rest: string, mark: string)
    requires |mark| <= |s|
    ensures mark <= s + rest <==> mark <= s
  {
    assert (s + rest)[..|mark|] == s[..|mark|];
  }

  /** What follows an occurrence does not move the first one. */
  lemma {:induction false} IndexIgnoresMore(s: string, rest: string, mark: string)
    requires Index(s, mark) >= 0
    ensures Index(s + rest, mark) == Index(s, mark)
  {
    PrefixIgnoresRest(s, rest, mark);
    if mark <= s {
    } else {
      IndexIgnoresMore(s[1..], rest, mark);
      assert (s + rest)[1..] == s[1..] + rest;
    }
  }

  lemma {:induction false} MarkIsFound(text: string, mark: string)
    ensures 0 <= Index(text + mark, mark) <= |text|
  {
    if text == [] {
      assert text + mark == mark;
    } else {
      MarkIsFound(text[1..], mark);
      assert (text + mark)[1..] == text[1..] + mark;
    }
  }

  lemma IndexIgnoresRest(text: string, mark: string, rest: string)
    ensures Index(text + mark + rest, mark) == Index(text + mark, mark)
    ensures 0 <= Index(text + mark, mark) <= |text|
  {
    MarkIsFound(text, mark);
    IndexIgnoresMore(text + mark, rest, mark);
  }

  /** The scheme is cut off, and nothing more unless the bucket itself starts like a URL. */
  lemma TrimmedUrl(bucket: string, rest: string)
    requires rest != [] && rest[0] == '.'
    ensures Trimmed("https://" + (bucket + rest)) == WithoutScheme(bucket) + rest
  {
    var s := bucket + rest;
    assert TrimPrefix("https://" + s, "https://") == s;
    if |bucket| >= 7 {
      assert s[..7] == bucket[..7];
    } else {
      assert s[|bucket|] == '.' && "http://"[|bucket|] != '.';
    }
  }

  function WithoutScheme(bucket: string): string {
    TrimPrefix(bucket, "http://")
  }

  lemma Regroup(scheme: string, bucket: string, s3: string, region: string, domain: string, slash: string, id: string)
    ensures scheme + bucket + s3 + region + (domain + slash) + id
         == scheme + (bucket + (s3 + (region + domain + (slash + id))))
  {
  }

  lemma UrlParts(bucket: string, region: string, infraId: string)
    ensures Trimmed(DiscoveryUrl(bucket, region, infraId))
         == WithoutScheme(bucket) + ".s3." + (region + ".amazonaws.com" + ("/" + infraId))
  {
    var tail := region + ".amazonaws.com" + ("/" + infraId);
    assert ".amazonaws.com/" == ".amazonaws.com" + "/";
    Regroup("https://", bucket, ".s3.", region, ".amazonaws.com", "/", infraId);
    TrimmedUrl(bucket, ".s3." + tail);
    assert WithoutScheme(bucket) + (".s3." + tail) == WithoutScheme(bucket) + ".s3." + tail;
  }

  /** The bucket is read back exactly when it is readable, whatever the region and the infrastructure ID are. */
  lemma BucketRoundTrip(bucket: string, region: string, infraId: string)
    ensures ExtractBucket(DiscoveryUrl(bucket, region, infraId)) == bucket <==> ReadableBucket(bucket)
  {
    var head := WithoutScheme(bucket);
    var tail := region + ".amazonaws.com" + ("/" + infraId);
    UrlParts(bucket, region, infraId);
    IndexIgnoresRest(head, ".s3.", tail);
    var trimmed := head + ".s3." + tail;
    var i := Index(trimmed, ".s3.");
    assert |trimmed[..i]| == i;
    if i == |bucket| {
      assert trimmed[..i] == bucket;
    }
  }

  /** After a readable bucket, the region is read back exactly when it is readable. */
  lemma RegionRoundTrip(bucket: string, region: string, infraId: string)
    requires bucket != "" && ReadableBucket(bucket)
    ensures ExtractRegion(DiscoveryUrl(bucket, region, infraId)) == region <==> ReadableRegion(region)
  {
    var tail := region + ".amazonaws.com" + ("/" + infraId);
    UrlParts(bucket, region, infraId);
    IndexIgnoresRest(bucket, ".s3.", tail);
    var trimmed := bucket + ".s3." + tail;
    assert trimmed[|bucket| + 4..] == tail;
    IndexIgnoresRest(region, ".amazonaws.com", "/" + infraId);
    var j := Index(tail, ".amazonaws.com");
    assert |tail[..j]| == j;
    if j == |region| {
      assert tail[..j] == region;
    }
  }

  /** Both are read back exactly when both are readable; without bucket, exactly when there is no region either. */
  lemma RoundTrip(bucket: string, region: string, infraId: string)
    ensures var url := DiscoveryUrl(bucket, region, infraId);
            ExtractBucket(url) == bucket && ExtractRegion(url) == region <==>
            if bucket == "" then region == "" else ReadableBucket(bucket) && ReadableRegion(region)
  {
    BucketRoundTrip(bucket, region, infraId);
    if bucket == "" {
      UrlParts(bucket, region, infraId);
      IndexIgnoresRest("", ".s3.", region + ".amazonaws.com" + ("/" + infraId));
    } else if ReadableBucket(bucket) {
      RegionRoundTrip(bucket, region, infraId);
    }
  }

  lemma {:induction false} DotFreeEnds(text: string, mark: string)
    requires '.' !in text && mark != [] && mark[0] == '.'
    ensures EndsAt(text, mark)
  {
    var s := text + mark;
    if text == [] {
      assert s == mark;
    } else {
      DotFreeEnds(text[1..], mark);
      assert s[1..] == text[1..] + mark;
      assert s[0] != mark[0];
    }
  }

  /** In particular, names without dots, and without colon in the bucket, are read back. */
  lemma PlainNamesRoundTrip(bucket: string, region: string, infraId: string)
    requires bucket != "" && '.' !in bucket && ':' !in bucket && '.' !in region
    ensures var url := DiscoveryUrl(bucket, region, infraId);
            ExtractBucket(url) == bucket && ExtractRegion(url) == region
  {
    DotFreeEnds(bucket, ".s3.");
    DotFreeEnds(region, ".amazonaws.com");
    assert "http://"[4] == ':';
    RoundTrip(bucket, region, infraId);
  }
}
