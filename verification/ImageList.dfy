/** The image URLs of a listing, joined by the database into one text and parsed back. */
module ImageList {
  import opened Text

  const IMAGE_SEPARATOR := '\U{001F}'

  predicate Contains(s: string, part: string) {
    exists i :: 0 <= i <= |s| && StartsWith(s[i..], part)
  }

  predicate LooksLikeSplitDataPrefix(s: string) {
    StartsWith(s, "data:") && Contains(s, ";base64") && ',' !in s
  }

  predicate StartsWithScheme(s: string) {
    StartsWith(s, "http://") || StartsWith(s, "https://") || StartsWith(s, "data:") || StartsWith(s, "blob:")
  }

  /** The second segment continues the first: together they were one data URL (section 3 of RFC 2397). */
  predicate Continues(first: string, second: string) {
    LooksLikeSplitDataPrefix(first) && !IsBlank(second) && !StartsWithScheme(second)
  }

  /** Comma-separated segments, with data URLs put together again. */
  function MergeSegments(raw: seq<string>): seq<string> {
    if raw == [] then []
    else
      var current := Trim(raw[0]);
      if current == "" then MergeSegments(raw[1..])
      else if |raw| > 1 && Continues(current, Trim(raw[1])) then
        [current + "," + Trim(raw[1])] + MergeSegments(raw[2..])
      else [current] + MergeSegments(raw[1..])
  }

  /** First occurrences of the non-blank values, in order. */
  function Distinct(values: seq<string>): seq<string> {
    if values == [] then []
    else
      var before, value := Distinct(values[..|values| - 1]), Trim(values[|values| - 1]);
      if value == "" || value in before then before else before + [value]
  }

  function Parse(imagePayload: string): seq<string> {
    if IsBlank(imagePayload) then []
    else if IMAGE_SEPARATOR in imagePayload then Distinct(SplitNonEmpty(imagePayload, IMAGE_SEPARATOR))
    else Distinct(MergeSegments(SplitNonEmpty(imagePayload, ',')))
  }

  // ---- the loops of the source ----

  /** The segments taken and the text made of them in one step of the merging loop. */
  function Taken(raw: seq<string>, i: nat): nat
    requires i < |raw|
  {
    if Trim(raw[i]) != "" && i + 1 < |raw| && Continues(Trim(raw[i]), Trim(raw[i + 1])) then 2 else 1
  }

  function Made(raw: seq<string>, i: nat): seq<string>
    requires i < |raw|
  {
    if Trim(raw[i]) == "" then []
    else if Taken(raw, i) == 2 then [Trim(raw[i]) + "," + Trim(raw[i + 1])]
    else [Trim(raw[i])]
  }

  lemma MergeStep(raw: seq<string>, i: nat)
    requires i < |raw|
    ensures i + Taken(raw, i) <= |raw|
    ensures MergeSegments(raw[i..]) == Made(raw, i) + MergeSegments(raw[i + Taken(raw, i)..])
  {
    assert raw[i..][0] == raw[i] && raw[i..][1..] == raw[i + 1..];
    if i + 1 < |raw| { assert raw[i..][1] == raw[i + 1] && raw[i..][2..] == raw[i + 2..]; }
  }

  /** What is merged so far, and what is still to come, make up the whole. */
  ghost predicate Merging(raw: seq<string>, i: nat, merged: seq<string>) {
    i <= |raw| && merged + MergeSegments(raw[i..]) == MergeSegments(raw)
  }

  lemma Turn(raw: seq<string>, i: nat, merged: seq<string>, made: seq<string>, next: nat)
    requires i <= next <= |raw| && Merging(raw, i, merged)
    requires MergeSegments(raw[i..]) == made + MergeSegments(raw[next..])
    ensures Merging(raw, next, merged + made)
  {
    var rest := MergeSegments(raw[next..]);
    assert merged + (made + rest) == (merged + made) + rest;
  }

  /** One turn of the loop. */
  method MergeAt(rawSegments: seq<string>, i: nat, merged: seq<string>) returns (extended: seq<string>, next: nat)
    requires i < |rawSegments|
    requires Merging(rawSegments, i, merged)
    ensures i < next <= |rawSegments| && Merging(rawSegments, next, extended)
  {
    MergeStep(rawSegments, i);
    Turn(rawSegments, i, merged, Made(rawSegments, i), i + Taken(rawSegments, i));
    var current := Trim(rawSegments[i]);
    if current == "" {
      return merged, i + 1;
    }
    if LooksLikeSplitDataPrefix(current) && i + 1 < |rawSegments| {
      var payload := Trim(rawSegments[i + 1]);
      if !IsBlank(payload) && !StartsWithScheme(payload) {
        return merged + [current + "," + payload], i + 2;
      }
    }
    return merged + [current], i + 1;
  }

  method ParseLegacyCommaDelimitedImages(imagePayload: string) returns (merged: seq<string>)
    ensures merged == MergeSegments(SplitNonEmpty(imagePayload, ','))
  {
    var rawSegments := SplitNonEmpty(imagePayload, ',');
    if |rawSegments| == 0 {
      return [];
    }
    merged := [];
    var i := 0;
    assert rawSegments[0..] == rawSegments;
    while i < |rawSegments|
      invariant Merging(rawSegments, i, merged)
    {
      merged, i := MergeAt(rawSegments, i, merged);
    }
    assert rawSegments[i..] == [];
  }

  method ParseAggregatedImageUrls(imagePayload: string) returns (images: seq<string>)
    ensures images == Parse(imagePayload)
  {
    if IsBlank(imagePayload) {
      return [];
    }
    var segments: seq<string>;
    if IMAGE_SEPARATOR in imagePayload {
      segments := SplitNonEmpty(imagePayload, IMAGE_SEPARATOR);
    } else {
      segments := ParseLegacyCommaDelimitedImages(imagePayload);
    }
    images := [];
    var seen: set<string> := {};
    for i := 0 to |segments|
      invariant images == Distinct(segments[..i])
      invariant forall x :: x in seen <==> x in images
    {
      assert segments[..i + 1][..i] == segments[..i];
      var normalized := Trim(segments[i]);
      if normalized == "" || normalized in seen {
        continue;
      }
      seen := seen + {normalized};
      images := images + [normalized];
    }
    assert segments[..|segments|] == segments;
  }

  // ---- round trips ----

  predicate CleanUrl(u: string) {
    u != "" && Trimmed(u) && IMAGE_SEPARATOR !in u
  }

  lemma {:induction false} DistinctOfClean(urls: seq<string>)
    requires forall u <- urls :: CleanUrl(u)
    ensures Distinct(urls) == DropLater(urls)
  {
    if urls != [] {
      var pre, last := urls[..|urls| - 1], urls[|urls| - 1];
      assert urls == pre + [last];
      DistinctOfClean(pre);
      DropLaterMeaning(pre);
      TrimIsTrimmed(last);
      assert CleanUrl(last) by { assert last in urls; }
      assert Trim(last) == last && (last in DropLater(pre) <==> last in pre);
    }
  }

  lemma JoinOfCleanIsNotBlank(urls: seq<string>, sep: char)
    requires urls != [] && forall u <- urls :: CleanUrl(u)
    ensures !IsBlank(Join(urls, sep))
  {
    var joined := Join(urls, sep);
    assert urls[0] in urls;
    if |urls| > 1 { assert joined == urls[0] + [sep] + Join(urls[1..], sep); }
    assert CleanUrl(urls[0]);
    assert joined[0] == urls[0][0] && !IsWhiteSpace(joined[0]);
  }

  /** Two or more clean URLs joined by the separator come back, with later duplicates dropped. */
  lemma SeparatedListRoundTrip(urls: seq<string>)
    requires |urls| >= 2 && forall u <- urls :: CleanUrl(u)
    ensures Parse(Join(urls, IMAGE_SEPARATOR)) == DropLater(urls)
  {
    JoinOfCleanIsNotBlank(urls, IMAGE_SEPARATOR);
    InJoin(urls, IMAGE_SEPARATOR, IMAGE_SEPARATOR);
    SplitJoin(urls, IMAGE_SEPARATOR);
    NonEmptyKeepsAll(urls);
    DistinctOfClean(urls);
  }

  /** An image in the comma-separated form: a URL without comma, or a base64 data URL with its one comma. */
  datatype Image = Plain(url: string) | Data(prefix: string, payload: string)

  function UrlOf(image: Image): string {
    if image.Plain? then image.url else image.prefix + "," + image.payload
  }

  function Parts(image: Image): seq<string> {
    if image.Plain? then [image.url] else [image.prefix, image.payload]
  }

  /** What the writer of an image list guarantees: trimmed, no separator, and no comma but the one of a data
      URL. */
  predicate WellFormed(image: Image) {
    match image
    case Plain(u) => CleanUrl(u) && ',' !in u
    case Data(prefix, payload) =>
      && CleanUrl(prefix) && LooksLikeSplitDataPrefix(prefix)
      && CleanUrl(payload) && ',' !in payload
  }

  /** What the commas need besides: no payload begins like a URL, and whatever follows a comma-free URL that
      looks like the front half of a data URL does begin like one. */
  predicate Clear(image: Image, next: seq<Image>) {
    match image
    case Data(_, payload) => !StartsWithScheme(payload)
    case Plain(u) => LooksLikeSplitDataPrefix(u) && next != [] ==> StartsWithScheme(Parts(next[0])[0])
  }

  predicate Unambiguous(images: seq<Image>) {
    images != [] ==> Clear(images[0], images[1..]) && Unambiguous(images[1..])
  }

  function UrlsOf(images: seq<Image>): seq<string> {
    if images == [] then [] else [UrlOf(images[0])] + UrlsOf(images[1..])
  }

  function AllParts(images: seq<Image>): seq<string> {
    if images == [] then [] else Parts(images[0]) + AllParts(images[1..])
  }

  lemma {:induction false} JoinUrlsIsJoinParts(images: seq<Image>)
    requires images != []
    ensures AllParts(images) != [] && |UrlsOf(images)| == |images|
    ensures Join(UrlsOf(images), ',') == Join(AllParts(images), ',')
  {
    var first := images[0];
    assert Join(Parts(first), ',') == UrlOf(first) by {
      if first.Data? { assert Parts(first)[1..] == [first.payload]; }
    }
    if |images| == 1 {
      assert images[1..] == [] && AllParts(images) == Parts(first) && UrlsOf(images) == [UrlOf(first)];
    } else {
      JoinUrlsIsJoinParts(images[1..]);
      JoinAppend(Parts(first), AllParts(images[1..]), ',');
      assert UrlsOf(images)[1..] == UrlsOf(images[1..]);
    }
  }

  lemma {:induction false} PartsAreClean(images: seq<Image>)
    requires forall m <- images :: WellFormed(m)
    ensures forall p <- AllParts(images) :: CleanUrl(p) && ',' !in p
    ensures forall t <- UrlsOf(images) :: CleanUrl(t)
  {
    if images != [] {
      assert images[0] in images;
      PartsAreClean(images[1..]);
    }
  }

  lemma MergeFirstData(prefix: string, payload: string, rest: seq<string>)
    requires WellFormed(Data(prefix, payload))
    ensures var merged := MergeSegments([prefix, payload] + rest);
            if StartsWithScheme(payload) then merged != [] && merged[0] == prefix
            else merged == [prefix + "," + payload] + MergeSegments(rest)
  {
    var raw := [prefix, payload] + rest;
    TrimIsTrimmed(prefix);
    TrimIsTrimmed(payload);
    MergeStep(raw, 0);
    assert raw[0..] == raw && raw[2..] == rest;
    assert !IsBlank(payload) by { assert !IsWhiteSpace(payload[0]); }
  }

  lemma MergeFirstPlain(u: string, rest: seq<string>)
    requires WellFormed(Plain(u)) && (rest != [] ==> CleanUrl(rest[0]))
    ensures var merged := MergeSegments([u] + rest);
            if LooksLikeSplitDataPrefix(u) && rest != [] && !StartsWithScheme(rest[0])
            then merged != [] && merged[0] == u + "," + rest[0]
            else merged == [u] + MergeSegments(rest)
  {
    var raw := [u] + rest;
    TrimIsTrimmed(u);
    MergeStep(raw, 0);
    assert raw[0..] == raw && raw[1..] == rest;
    if rest != [] {
      TrimIsTrimmed(rest[0]);
      assert raw[1] == rest[0];
      assert !IsBlank(rest[0]) by { assert !IsWhiteSpace(rest[0][0]); }
    }
  }

  /** The first image comes out whole exactly when it is clear of its successor. */
  lemma MergeFirst(image: Image, next: seq<Image>)
    requires WellFormed(image) && (next != [] ==> WellFormed(next[0]))
    ensures var merged := MergeSegments(Parts(image) + AllParts(next));
            if Clear(image, next) then merged == [UrlOf(image)] + MergeSegments(AllParts(next))
            else merged != [] && merged[0] != UrlOf(image)
  {
    match image
    case Data(prefix, payload) =>
      MergeFirstData(prefix, payload, AllParts(next));
      assert |prefix| != |prefix + "," + payload|;
    case Plain(u) =>
      if next != [] { assert AllParts(next)[0] == Parts(next[0])[0]; }
      MergeFirstPlain(u, AllParts(next));
      if next != [] { assert |u| != |u + "," + Parts(next[0])[0]|; }
  }

  /** Merging puts a comma-separated list together again exactly when it is unambiguous. */
  lemma {:induction false} MergeIsExact(images: seq<Image>)
    requires forall m <- images :: WellFormed(m)
    ensures MergeSegments(AllParts(images)) == UrlsOf(images) <==> Unambiguous(images)
  {
    if images != [] {
      assert images[0] in images;
      var next := images[1..];
      if next != [] { assert next[0] == images[1] && images[1] in images; }
      MergeFirst(images[0], next);
      MergeIsExact(next);
      assert UrlsOf(images)[0] == UrlOf(images[0]) && UrlsOf(images)[1..] == UrlsOf(next);
    }
  }

  /** Well-formed, unambiguous images joined by commas come back, with later duplicates dropped. */
  lemma CommaListRoundTrip(images: seq<Image>)
    requires images != [] && Unambiguous(images) && forall m <- images :: WellFormed(m)
    ensures Parse(Join(UrlsOf(images), ',')) == DropLater(UrlsOf(images))
  {
    var parts := AllParts(images);
    PartsAreClean(images);
    JoinUrlsIsJoinParts(images);
    JoinOfCleanIsNotBlank(UrlsOf(images), ',');
    InJoin(parts, ',', IMAGE_SEPARATOR);
    SplitJoin(parts, ',');
    NonEmptyKeepsAll(parts);
    MergeIsExact(images);
    DistinctOfClean(UrlsOf(images));
  }

  lemma MergeTwo(a: string, b: string)
    requires CleanUrl(a) && CleanUrl(b)
    ensures MergeSegments([a, b]) == if Continues(a, b) then [a + "," + b] else [a, b]
  {
    TrimIsTrimmed(a);
    TrimIsTrimmed(b);
    assert [a, b][1..] == [b] && [a, b][2..] == [];
    MergeStep([b], 0);
    MergeStep([a, b], 0);
    assert [b][0..] == [b] && [b][1..] == [] && [a, b][0..] == [a, b];
  }

  lemma DistinctOne(a: string)
    requires CleanUrl(a)
    ensures Distinct([a]) == [a]
  {
    TrimIsTrimmed(a);
    assert [a][..0] == [];
  }

  lemma TwoParts(a: string, b: string)
    requires CleanUrl(a) && CleanUrl(b) && ',' !in a && ',' !in b
    ensures Parse(a + "," + b) ==
            if Continues(a, b) then [a + "," + b] else DropLater([a, b])
  {
    var parts := [a, b];
    assert parts[1..] == [b] && Join(parts, ',') == a + "," + b;
    JoinOfCleanIsNotBlank(parts, ',');
    InJoin(parts, ',', IMAGE_SEPARATOR);
    SplitJoin(parts, ',');
    NonEmptyKeepsAll(parts);
    MergeTwo(a, b);
    if Continues(a, b) {
      JoinedIsClean(a, b);
      DistinctOne(a + "," + b);
    } else {
      DistinctOfClean(parts);
    }
  }

  lemma JoinedIsClean(a: string, b: string)
    requires CleanUrl(a) && CleanUrl(b)
    ensures CleanUrl(a + "," + b)
  {
  }

  /** The conditions are exact: a base64 data URL survives exactly when its payload does not begin like a
      URL, and two URLs stay apart exactly when the first does not look like a split data prefix or the
      second begins like a URL. */
  lemma CommaConditionsAreExact(a: string, b: string)
    requires CleanUrl(a) && CleanUrl(b) && ',' !in a && ',' !in b && a != b
    ensures LooksLikeSplitDataPrefix(a) ==> (Parse(a + "," + b) == [a + "," + b] <==> !StartsWithScheme(b))
    ensures Parse(a + "," + b) == [a, b] <==> !LooksLikeSplitDataPrefix(a) || StartsWithScheme(b)
  {
    TwoParts(a, b);
    assert !IsBlank(b) by { assert !IsWhiteSpace(b[0]); }
    assert DropLater([a, b]) == [a, b] by {
      assert [a, b][..1] == [a] && [a][..0] == [];
      assert DropLater([a]) == [a];
    }
    assert |[a, b]| == 2 && |[a + "," + b]| == 1;
  }
}
