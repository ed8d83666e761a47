/**
 * `formatImageUrl`, which the Family page and the patient's Memories page
 * define identically: it turns the image paths the backend returns into
 * absolute URLs against the development API base.
 */
module ImageUrl {
  import opened Wrappers
  import opened Text

  const ApiBase: string := "http://127.0.0.1:8000"

  /** `/^https?:\/\//i`. */
  predicate IsAbsolute(url: string) {
    StartsWith(Lower(url), "http://") || StartsWith(Lower(url), "https://")
  }

  /** "" stands for every falsy value, for which the function returns null. */
  function FormatImageUrl(url: string): (r: Option<string>)
    ensures r.None? <==> url == ""
    ensures r.Some? ==> |url| <= |r.value| && r.value[|r.value| - |url|..] == url
  {
    if url == "" then None
    else if IsAbsolute(url) then Some(url)
    else if StartsWith(url, "/") then Some(ApiBase + url)
    else if StartsWith(url, "media/") then Some(ApiBase + "/" + url)
    else Some(url)
  }

  /** `m.resolved_image_url || m.image_url || m.image || null`, then formatted. */
  function MemoryImage(resolvedImageUrl: string, imageUrl: string, image: string): (r: Option<string>)
    ensures r.None? <==> resolvedImageUrl == "" && imageUrl == "" && image == ""
    ensures resolvedImageUrl != "" ==> r == FormatImageUrl(resolvedImageUrl)
    ensures resolvedImageUrl == "" && imageUrl != "" ==> r == FormatImageUrl(imageUrl)
    ensures resolvedImageUrl == "" && imageUrl == "" ==> r == FormatImageUrl(image)
  {
    var chosen := if resolvedImageUrl != "" then resolvedImageUrl else if imageUrl != "" then imageUrl else image;
    FormatImageUrl(chosen)
  }

  lemma LowerPrefix(a: string, b: string)
    ensures Lower(a + b)[..|a|] == Lower(a)
  {
  }

  /** Anything with the API base in front counts as absolute. */
  lemma {:induction false} BasedIsAbsolute(path: string)
    ensures IsAbsolute(ApiBase + path)
  {
    LowerPrefix(ApiBase, path);
    assert Lower(ApiBase) == ApiBase;
    LowerPrefix("http://", ApiBase[7..] + path);
    assert ApiBase + path == "http://" + (ApiBase[7..] + path);
  }

  /** The five cases, as the page relies on them. */
  lemma FormatImageUrlCases(url: string)
    ensures IsAbsolute(url) ==> FormatImageUrl(url) == Some(url)
    ensures !IsAbsolute(url) && StartsWith(url, "/") ==> FormatImageUrl(url) == Some(ApiBase + url)
    ensures !IsAbsolute(url) && StartsWith(url, "media/") ==> FormatImageUrl(url) == Some(ApiBase + "/" + url)
    ensures url != "" && !IsAbsolute(url) && !StartsWith(url, "/") && !StartsWith(url, "media/") ==>
      FormatImageUrl(url) == Some(url)
  {
    if StartsWith(url, "media/") {
      assert url[..6][0] == 'm';
    }
  }

  /** A formatted URL is formatted to itself again. */
  lemma {:induction false} FormatImageUrlIdempotent(url: string)
    requires url != ""
    ensures FormatImageUrl(FormatImageUrl(url).value) == FormatImageUrl(url)
  {
    if !IsAbsolute(url) && StartsWith(url, "/") {
      BasedIsAbsolute(url);
    } else if !IsAbsolute(url) && StartsWith(url, "media/") {
      BasedIsAbsolute("/" + url);
      assert ApiBase + "/" + url == ApiBase + ("/" + url);
    }
  }
}
