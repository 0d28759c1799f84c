/**
 * Image URL resolution (`resolveImageUrl` in scrape.js, `resolve_image_url` in
 * main.py) and the normalisation of the resolved URL against the site's origin.
 */
module ImageUrl {
  import opened Wrappers
  import opened Text
  import opened Dom

  /** The prefix of an inline base64 lazy-load placeholder. */
  const DataImage: string := "data:image"

  /** The origin that relative URLs are resolved against. */
  const BaseOrigin: string := "https://www.dawn.com"

  /** `url && !url.startsWith('data:image')`: set, non-empty and not a placeholder. */
  predicate Usable(v: Option<string>) {
    v.Some? && v.value != [] && !StartsWith(v.value, DataImage)
  }

  function ImgAttr(e: Element, name: string): Option<string> {
    Attr(e.img, name)
  }

  /** The `srcset` of the first `<source>` of the first `<picture>`, if all three exist. */
  function PictureSrcset(e: Element): Option<string> {
    if e.picture.Some? then Attr(e.picture.value.source, "srcset") else None
  }

  /** `srcset.split(',')[0].trim().split(' ')[0]`: the URL of the first candidate. */
  function FirstCandidate(srcset: string): (r: string)
    ensures ',' !in r && ' ' !in r
    ensures r == [] || !IsSpace(r[0])
  {
    TrimLacks(Before(srcset, ','), ',');
    Before(Trim(Before(srcset, ',')), ' ')
  }

  /** Rule 3: the `<img>` has a non-empty `srcset` whose first candidate is not a placeholder. */
  predicate ImgSrcsetRule(e: Element) {
    var s := ImgAttr(e, "srcset");
    s.Some? && s.value != [] && !StartsWith(FirstCandidate(s.value), DataImage)
  }

  /** Rule 4: the picture's source has a non-empty `srcset` (its candidate is not filtered). */
  predicate PictureRule(e: Element) {
    var s := PictureSrcset(e);
    s.Some? && s.value != []
  }

  /**
   * The raw image URL of an article: `data-src`, then `data-original`, then the
   * first candidate of the image's `srcset`, then the first candidate of the
   * picture's `srcset`, then `src`; placeholders are skipped except on the picture path.
   */
  function ResolveImageUrl(e: Element): (r: Option<string>)
    ensures Usable(ImgAttr(e, "data-src")) ==> r == ImgAttr(e, "data-src")
    ensures r.Some? && StartsWith(r.value, DataImage) ==>
      PictureRule(e) && r.value == FirstCandidate(PictureSrcset(e).value)
    ensures r.Some? ==>
      || r == ImgAttr(e, "data-src") || r == ImgAttr(e, "data-original") || r == ImgAttr(e, "src")
      || (ImgAttr(e, "srcset").Some? && r.value == FirstCandidate(ImgAttr(e, "srcset").value))
      || (PictureSrcset(e).Some? && r.value == FirstCandidate(PictureSrcset(e).value))
    ensures !Usable(ImgAttr(e, "data-src")) && Usable(ImgAttr(e, "data-original")) ==>
      r == ImgAttr(e, "data-original")
    ensures !Usable(ImgAttr(e, "data-src")) && !Usable(ImgAttr(e, "data-original")) && ImgSrcsetRule(e) ==>
      r == Some(FirstCandidate(ImgAttr(e, "srcset").value))
    ensures (!Usable(ImgAttr(e, "data-src")) && !Usable(ImgAttr(e, "data-original")) && !ImgSrcsetRule(e)
      && PictureRule(e)) ==> r == Some(FirstCandidate(PictureSrcset(e).value))
    ensures (!Usable(ImgAttr(e, "data-src")) && !Usable(ImgAttr(e, "data-original")) && !ImgSrcsetRule(e)
      && !PictureRule(e) && Usable(ImgAttr(e, "src"))) ==> r == ImgAttr(e, "src")
    ensures r.None? <==>
      && !Usable(ImgAttr(e, "data-src")) && !Usable(ImgAttr(e, "data-original"))
      && !ImgSrcsetRule(e) && !PictureRule(e) && !Usable(ImgAttr(e, "src"))
  {
    if Usable(ImgAttr(e, "data-src")) then ImgAttr(e, "data-src")
    else if Usable(ImgAttr(e, "data-original")) then ImgAttr(e, "data-original")
    else if ImgSrcsetRule(e) then Some(FirstCandidate(ImgAttr(e, "srcset").value))
    else if PictureRule(e) then Some(FirstCandidate(PictureSrcset(e).value))
    else if Usable(ImgAttr(e, "src")) then ImgAttr(e, "src")
    else None
  }

  /** The element with one attribute removed from its `<img>`. */
  function WithoutImgAttr(e: Element, name: string): (r: Element)
    ensures ImgAttr(r, name).None?
    ensures forall n :: n != name ==> ImgAttr(r, n) == ImgAttr(e, n)
  {
    if e.img.Some? then e.(img := Some(e.img.value - {name})) else e
  }

  /**
   * A placeholder in `data-src`, `data-original` or `src` is never used: the
   * result is the same as if the attribute were not there.
   */
  lemma PlaceholderAttrIgnored(e: Element, name: string)
    requires name in {"data-src", "data-original", "src"}
    requires ImgAttr(e, name).Some? && StartsWith(ImgAttr(e, name).value, DataImage)
    ensures ResolveImageUrl(e) == ResolveImageUrl(WithoutImgAttr(e, name))
  {
    var e' := WithoutImgAttr(e, name);
    assert PictureSrcset(e') == PictureSrcset(e);
    assert ImgAttr(e', "srcset") == ImgAttr(e, "srcset");
    assert ImgSrcsetRule(e') == ImgSrcsetRule(e);
    assert !Usable(ImgAttr(e, name)) && !Usable(ImgAttr(e', name));
    if name == "data-src" {
      assert ImgAttr(e', "data-original") == ImgAttr(e, "data-original");
      assert ImgAttr(e', "src") == ImgAttr(e, "src");
    } else if name == "data-original" {
      assert ImgAttr(e', "data-src") == ImgAttr(e, "data-src");
      assert ImgAttr(e', "src") == ImgAttr(e, "src");
    } else {
      assert ImgAttr(e', "data-src") == ImgAttr(e, "data-src");
      assert ImgAttr(e', "data-original") == ImgAttr(e, "data-original");
    }
  }

  /** An `<img>` `srcset` whose first candidate is a placeholder is skipped the same way. */
  lemma PlaceholderSrcsetIgnored(e: Element)
    requires ImgAttr(e, "srcset").Some? && StartsWith(FirstCandidate(ImgAttr(e, "srcset").value), DataImage)
    ensures ResolveImageUrl(e) == ResolveImageUrl(WithoutImgAttr(e, "srcset"))
  {
    var e' := WithoutImgAttr(e, "srcset");
    assert PictureSrcset(e') == PictureSrcset(e);
  }

  /**
   * The picture path does not filter placeholders: when the earlier rules fail,
   * a placeholder first candidate in the picture's `srcset` is returned as is.
   */
  lemma PicturePlaceholderReturned(e: Element)
    requires !Usable(ImgAttr(e, "data-src")) && !Usable(ImgAttr(e, "data-original")) && !ImgSrcsetRule(e)
    requires PictureRule(e) && StartsWith(FirstCandidate(PictureSrcset(e).value), DataImage)
    ensures ResolveImageUrl(e).Some? && StartsWith(ResolveImageUrl(e).value, DataImage)
  {
  }

  /** A run of whitespace followed by a URL without commas has no comma. */
  lemma NoCommaIn(w: string, u: string)
    requires forall i :: 0 <= i < |w| ==> IsSpace(w[i])
    requires forall i :: 0 <= i < |u| ==> !IsSpace(u[i]) && u[i] != ','
    ensures ',' !in w + u
  {
    assert ',' !in w;
  }

  /** Trimming `w + u + r` leaves `u` in front of what remains of `r`, which starts with a space. */
  lemma TrimAroundUrl(w: string, u: string, r: string)
    requires forall i :: 0 <= i < |w| ==> IsSpace(w[i])
    requires u != [] && forall i :: 0 <= i < |u| ==> !IsSpace(u[i])
    requires r == [] || r[0] == ' '
    ensures Trim(w + (u + r)) == u + TrimEnd(r)
    ensures TrimEnd(r) == [] || TrimEnd(r)[0] == ' '
  {
    TrimStartSkips(w, u + r);
    TrimEndAppend(u, r);
  }

  /**
   * The candidate URL of a srcset written `u`, `u 2x` or `u 480w, v 800w`, with
   * optional leading whitespace, is `u`.
   */
  lemma FirstCandidateOf(w: string, u: string, rest: string)
    requires forall i :: 0 <= i < |w| ==> IsSpace(w[i])
    requires u != [] && forall i :: 0 <= i < |u| ==> !IsSpace(u[i]) && u[i] != ','
    requires rest == [] || rest[0] == ',' || rest[0] == ' '
    ensures FirstCandidate(w + u + rest) == u
  {
    NoCommaIn(w, u);
    BeforeSkip(w + u, rest, ',');
    var rest' := Before(rest, ',');
    assert (w + u) + rest' == w + (u + rest');
    TrimAroundUrl(w, u, rest');
    BeforeAppend(u, TrimEnd(rest'), ' ');
  }

  /**
   * `https:` before a protocol-relative URL, nothing before an absolute one and
   * the site's origin before anything else; an unset or empty raw URL gives no image.
   */
  function NormalizeImageUrl(raw: Option<string>): (r: Option<string>)
    ensures r.Some? <==> raw.Some? && raw.value != []
    ensures r.Some? ==> StartsWith(r.value, "http") && EndsWith(r.value, raw.value)
    ensures r.Some? && StartsWith(raw.value, "http") ==> r == raw
    ensures raw.Some? && StartsWith(raw.value, "//") ==> r == Some("https:" + raw.value)
    ensures raw.Some? && raw.value != [] && !StartsWith(raw.value, "//") && !StartsWith(raw.value, "http") ==>
      r == Some(BaseOrigin + raw.value)
  {
    if raw.None? || raw.value == [] then None
    else if StartsWith(raw.value, "//") then
      assert raw.value[0] == '/';
      Some("https:" + raw.value)
    else if StartsWith(raw.value, "http") then raw
    else Some(BaseOrigin + raw.value)
  }

  /** Normalising an already normalised image URL changes nothing. */
  lemma NormalizeImageUrlIdempotent(raw: Option<string>)
    ensures NormalizeImageUrl(NormalizeImageUrl(raw)) == NormalizeImageUrl(raw)
  {
    var r := NormalizeImageUrl(raw);
    if r.Some? {
      assert !StartsWith(r.value, "//") by {
        assert r.value[0] == 'h';
      }
    }
  }
}
