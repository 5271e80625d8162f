/** The CTF page's choice of preview for each card. */
module CtfsPage {
  import opened Records
  import opened Schemas
  import opened Assets

  /** The element `renderPreview` returns. */
  datatype Preview =
    | WatchLink(href: string)  // an external "Watch CTF Video" link
    | Video(src: string)       // a video player
    | Image(src: string)       // an image
    | Nothing                  // `null`

  predicate LinkChosen(c: Ctf) {
    c.previewType == "link" && c.videoLink != ""
  }

  predicate VideoChosen(c: Ctf) {
    !LinkChosen(c) && c.previewType == "video" && c.preview != ""
  }

  /** The first case that applies, in source order: a link, a video, then
      an image for any other non-empty preview. */
  function RenderPreview(c: Ctf): (v: Preview)
    ensures v.WatchLink? <==> LinkChosen(c)
    ensures v.Video? <==> VideoChosen(c)
    ensures v.Image? <==> !LinkChosen(c) && !VideoChosen(c) && c.preview != ""
    ensures v.WatchLink? ==> v.href == c.videoLink
    ensures v.Video? || v.Image? ==> v.src == AssetUrl(c.preview)
  {
    if c.previewType == "link" && c.videoLink != "" then WatchLink(c.videoLink)
    else if c.previewType == "video" && c.preview != "" then Video(AssetUrl(c.preview))
    else if c.preview != "" then Image(AssetUrl(c.preview))
    else Nothing
  }

  /** A card shows nothing exactly when it has no preview and no usable
      video link. */
  lemma NothingIffEmpty(c: Ctf)
    ensures RenderPreview(c).Nothing? <==> c.preview == "" && !LinkChosen(c)
  {
  }

  /** A link-type CTF without a video link falls back to its preview image. */
  lemma LinkWithoutVideoShowsImage(c: Ctf)
    requires c.previewType == "link" && c.videoLink == "" && c.preview != ""
    ensures RenderPreview(c) == Image(AssetUrl(c.preview))
  {
  }

  /** The preview type alone never decides: a video-type CTF without a
      preview shows nothing, and any type other than the three listed
      renders like "image". */
  lemma TypeIsOnlyAHint(c: Ctf)
    ensures c.previewType == "video" && c.preview == "" ==> RenderPreview(c) == Nothing
    ensures c.previewType !in PreviewTypes ==> RenderPreview(c) == RenderPreview(c.(previewType := "image"))
  {
  }
}
