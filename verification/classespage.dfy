/** The classes page: the optional information lines of a class card, the
    materials block and how each content link is rendered. */
module ClassesPage {
  import opened Wrappers
  import opened Text
  import opened Records
  import opened Schemas
  import opened Assets

  /** An entry of `contentLinks` as the page may receive it: a plain string
      from an older document, or a `{ label, url }` object whose missing
      fields are "". */
  datatype ShownLink = Legacy(value: string) | Structured(link: Link)

  /** `link.url || link`: a string has no `url`, and an object without one
      is turned into text by the `href` attribute. */
  function LinkHref(l: ShownLink): (href: string)
    ensures l.Legacy? ==> href == l.value
    ensures l.Structured? && l.link.url != "" ==> href == l.link.url
    ensures l.Structured? && l.link.url == "" ==> href == "[object Object]"
  {
    match l
    case Legacy(s) => s
    case Structured(k) => if k.url != "" then k.url else "[object Object]"
  }

  /** `link.label || link.url || link`; `None` when that is an object,
      which React refuses to render as a child. */
  function LinkLabel(l: ShownLink): (shown: Option<string>)
    ensures l.Legacy? ==> shown == Some(l.value)
    ensures l.Structured? && l.link.text != "" ==> shown == Some(l.link.text)
    ensures l.Structured? && l.link.text == "" && l.link.url != "" ==> shown == Some(l.link.url)
    ensures shown.None? <==> l.Structured? && l.link.text == "" && l.link.url == ""
  {
    match l
    case Legacy(s) => Some(s)
    case Structured(k) =>
      if k.text != "" then Some(k.text)
      else if k.url != "" then Some(k.url)
      else None
  }

  /** Every link a class passed validation with renders as its own label
      pointing at its own url. */
  lemma ValidLinksRender(c: ClassItem, i: nat)
    requires ValidClass(c) && i < |c.contentLinks|
    ensures LinkHref(Structured(c.contentLinks[i])) == c.contentLinks[i].url
    ensures LinkLabel(Structured(c.contentLinks[i])) == Some(c.contentLinks[i].text)
  {
  }

  /** The materials block: `(contentFile || contentLinks.length > 0)`. */
  predicate MaterialsShown(contentFile: string, links: seq<ShownLink>) {
    contentFile != "" || |links| > 0
  }

  /** The download link of the materials block, when there is a file. */
  function DownloadHref(contentFile: string): (href: Option<string>)
    ensures href.Some? <==> contentFile != ""
    ensures href.Some? ==> EndsWith(href.value, contentFile)
    ensures href.Some? && StartsWith(contentFile, UploadsPrefix) ==> href.value == ServerOrigin + contentFile
  {
    AssetUrlKeepsPath(contentFile);
    if contentFile != "" then Some(AssetUrl(contentFile)) else None
  }

  /** The materials block appears exactly when it has a download link or a
      link list to show. */
  lemma MaterialsIffContent(contentFile: string, links: seq<ShownLink>)
    ensures MaterialsShown(contentFile, links) <==> DownloadHref(contentFile).Some? || |links| > 0
  {
  }

  /** What `{value && (<div>...</div>)}` puts on the card. */
  datatype Fragment =
    | Omitted             // a falsy string, `undefined` or `null`: nothing
    | StrayText(s: string) // a falsy number: React renders the number itself
    | InfoLine(s: string) // the information line

  /** The instructor line, shown for a non-empty instructor. */
  function InstructorLine(instructor: string): (f: Fragment)
    ensures f.Omitted? <==> instructor == ""
    ensures f.InfoLine? ==> EndsWith(f.s, instructor)
  {
    var s := "Instructor: " + instructor;
    assert s[|s| - |instructor|..] == instructor;
    if instructor == "" then Omitted else InfoLine(s)
  }

  /** The location line, shown for a non-empty location. */
  function LocationLine(location: string): (f: Fragment)
    ensures f.Omitted? <==> location == ""
    ensures f.InfoLine? ==> f.s == location
  {
    if location == "" then Omitted else InfoLine(location)
  }

  /** The capacity line. A capacity of 0 is falsy, so the line is hidden,
      but the `&&` then yields the number 0, which React renders as the
      text "0". */
  function CapacityLine(capacity: Option<int>): (f: Fragment)
    ensures f.Omitted? <==> capacity.None?
    ensures f.StrayText? <==> capacity == Some(0)
    ensures f.StrayText? ==> f.s == "0"
    ensures f.InfoLine? ==> capacity.Some? && capacity.value != 0
  {
    match capacity
    case None => Omitted
    case Some(n) =>
      if n == 0 then StrayText(IntToDecimal(0))
      else InfoLine("Capacity: " + IntToDecimal(n) + " students")
  }

  /** The number a capacity line shows is the stored one. */
  lemma CapacityLineShowsNumber(n: nat)
    requires n != 0
    ensures var f := CapacityLine(Some(n));
      f.InfoLine? && StartsWith(f.s, "Capacity: ")
      && DecimalValue(f.s[|"Capacity: "|..|f.s| - |" students"|]) == n
  {
    var d := IntToDecimal(n);
    var s := "Capacity: " + d + " students";
    assert s[|"Capacity: "|..|s| - |" students"|] == d;
    assert s[..|"Capacity: "|] == "Capacity: ";
  }
}
