/** The validation and casting rules of the Class, CTF and Member schemas:
    which paths are required, which are trimmed, the `previewType` enum and
    its default, the shape of a `contentLinks` entry and the `createdAt`
    default. A constructor here is `new Model(fields)` followed by
    `save()`'s validation: it gives the stored document, or `None` when a
    validator rejects the fields. */
module Schemas {
  import opened Wrappers
  import opened Text
  import opened Records

  /** Mongoose's `required` test on a String path: the value is there and
      is not the empty string. */
  predicate Present(v: Option<string>) {
    v.Some? && v.value != ""
  }

  /** The value is there and is not only white space. */
  predicate Filled(v: Option<string>) {
    v.Some? && !AllSpace(v.value)
  }

  /** What a `trim: true` path holds once its setter ran ("" when absent). */
  function Trimmed(v: Option<string>): string {
    if v.Some? then Trim(v.value) else ""
  }

  /** A `required: true, trim: true` path: the setter trims first, then the
      required test sees the trimmed text, so it accepts exactly the values
      that are not blank. */
  lemma RequiredTrimmedIffFilled(v: Option<string>)
    ensures (v.Some? && Trimmed(v) != "") <==> Filled(v)
  {
    if v.Some? {
      TrimEmptyIffBlank(v.value);
    }
  }

  /** The update setter of a plain path: an absent value leaves the stored
      one, a present one replaces it. */
  function Assign(stored: string, v: Option<string>): string {
    v.GetOr(stored)
  }

  /** The update setter of a `trim: true` path. */
  function AssignTrimmed(stored: string, v: Option<string>): (r: string)
    ensures v.None? ==> r == stored
    ensures v.Some? ==> NoOuterSpace(r) && CoreAt(v.value, r, |v.value| - |TrimStart(v.value)|)
  {
    if v.Some? then Trim(v.value) else stored
  }

  // Class (backend/models/Class.js)

  /** The fields the classes route passes to `new Class(...)`. */
  datatype ClassInput = ClassInput(
    title: Option<string>,
    description: Option<string>,
    instructor: Option<string>,
    date: Option<int>,
    time: Option<string>,
    location: Option<string>,
    capacity: Option<int>,
    contentFile: string,
    contentLinks: seq<Link>)

  /** A `contentLinks` sub-document needs both its label and its url. */
  predicate CompleteLink(l: Link) {
    l.text != "" && l.url != ""
  }

  predicate CompleteLinks(ls: seq<Link>) {
    forall i :: 0 <= i < |ls| ==> CompleteLink(ls[i])
  }

  /** What every class that passed validation satisfies. */
  predicate ValidClass(c: ClassItem) {
    && c.title != "" && NoOuterSpace(c.title)
    && c.description != ""
    && c.time != ""
    && NoOuterSpace(c.instructor)
    && NoOuterSpace(c.location)
    && CompleteLinks(c.contentLinks)
  }

  /** `new Class(input).save()`. */
  function NewClass(id: Id, input: ClassInput, now: int): (r: Option<ClassItem>)
    ensures r.Some? <==>
      && Filled(input.title)
      && Present(input.description)
      && input.date.Some?
      && Present(input.time)
      && CompleteLinks(input.contentLinks)
    ensures r.Some? ==> ValidClass(r.value)
    ensures r.Some? ==> r.value.id == id && r.value.createdAt == now
    ensures r.Some? ==>
      && r.value.title == Trim(input.title.value)
      && r.value.description == input.description.value
      && r.value.instructor == Trimmed(input.instructor)
      && r.value.date == input.date.value
      && r.value.time == input.time.value
      && r.value.location == Trimmed(input.location)
      && r.value.capacity == input.capacity
      && r.value.contentFile == input.contentFile
      && r.value.contentLinks == input.contentLinks
  {
    RequiredTrimmedIffFilled(input.title);
    if input.title.Some? && Trimmed(input.title) != ""
       && Present(input.description) && input.date.Some? && Present(input.time)
       && CompleteLinks(input.contentLinks)
    then
      Some(ClassItem(
        id, Trimmed(input.title), input.description.value, Trimmed(input.instructor),
        input.date.value, input.time.value, Trimmed(input.location), input.capacity,
        input.contentFile, input.contentLinks, now))
    else None
  }

  // CTF (backend/models/CTF.js)

  /** The values the `previewType` enum allows, and its default. */
  const PreviewTypes: seq<string> := ["image", "video", "link"]
  const DefaultPreviewType: string := "image"

  /** The fields the CTF route passes to `new CTF(...)`. */
  datatype CtfInput = CtfInput(
    title: Option<string>,
    author: Option<string>,
    preview: string,
    previewType: Option<string>,
    videoLink: Option<string>,
    description: Option<string>)

  /** What every CTF that passed validation satisfies. */
  predicate ValidCtf(c: Ctf) {
    && c.title != "" && NoOuterSpace(c.title)
    && c.author != "" && NoOuterSpace(c.author)
    && c.previewType in PreviewTypes
    && NoOuterSpace(c.description)
  }

  /** The default preview type is one the enum allows. */
  lemma DefaultPreviewTypeListed()
    ensures DefaultPreviewType in PreviewTypes
  {
    assert PreviewTypes[0] == DefaultPreviewType;
  }

  /** The CTF validators as `save()` runs them: the setters trim title and
      author, `required` rejects a missing or empty result, and the enum
      checks the type after the default filled an absent one. */
  predicate CtfPasses(input: CtfInput) {
    && input.title.Some? && Trimmed(input.title) != ""
    && input.author.Some? && Trimmed(input.author) != ""
    && input.previewType.GetOr(DefaultPreviewType) in PreviewTypes
  }

  /** The validators accept exactly blank-free title and author and an
      absent or listed preview type. */
  lemma CtfPassesIff(input: CtfInput)
    ensures CtfPasses(input) <==>
      && Filled(input.title)
      && Filled(input.author)
      && (input.previewType.None? || input.previewType.value in PreviewTypes)
  {
    RequiredTrimmedIffFilled(input.title);
    RequiredTrimmedIffFilled(input.author);
    DefaultPreviewTypeListed();
  }

  /** `new CTF(input).save()`. The default applies only to an absent
      `previewType`; a present one must be one of the enum's values. */
  function NewCtf(id: Id, input: CtfInput, now: int): (r: Option<Ctf>)
    ensures r.Some? <==>
      && Filled(input.title)
      && Filled(input.author)
      && (input.previewType.None? || input.previewType.value in PreviewTypes)
    ensures r.Some? ==> ValidCtf(r.value)
    ensures r.Some? ==> r.value == Ctf(
      id, Trim(input.title.value), Trim(input.author.value), input.preview,
      input.previewType.GetOr(DefaultPreviewType), input.videoLink.GetOr(""), Trimmed(input.description), now)
  {
    CtfPassesIff(input);
    if CtfPasses(input) then
      Some(Ctf(
        id, Trimmed(input.title), Trimmed(input.author), input.preview, input.previewType.GetOr(DefaultPreviewType),
        input.videoLink.GetOr(""), Trimmed(input.description), now))
    else None
  }

  // Member (backend/models/Member.js)

  /** The fields the members route passes to `new Member(...)`. */
  datatype MemberInput = MemberInput(
    name: Option<string>,
    role: Option<string>,
    image: Option<string>,
    bio: Option<string>,
    linkedin: Option<string>,
    github: Option<string>)

  /** What every member that passed validation satisfies. */
  predicate ValidMember(m: Member) {
    && m.name != "" && NoOuterSpace(m.name)
    && m.role != "" && NoOuterSpace(m.role)
  }

  /** `new Member(input).save()`. */
  function NewMember(id: Id, input: MemberInput, now: int): (r: Option<Member>)
    ensures r.Some? <==> Filled(input.name) && Filled(input.role)
    ensures r.Some? ==> ValidMember(r.value)
    ensures r.Some? ==> r.value.id == id && r.value.createdAt == now
    ensures r.Some? ==>
      && r.value.name == Trim(input.name.value)
      && r.value.role == Trim(input.role.value)
      && r.value.image == input.image.GetOr("")
      && r.value.bio == input.bio.GetOr("")
      && r.value.linkedin == input.linkedin.GetOr("")
      && r.value.github == input.github.GetOr("")
  {
    RequiredTrimmedIffFilled(input.name);
    RequiredTrimmedIffFilled(input.role);
    if input.name.Some? && Trimmed(input.name) != "" && input.role.Some? && Trimmed(input.role) != ""
    then
      Some(Member(
        id, Trimmed(input.name), Trimmed(input.role), input.image.GetOr(""),
        input.bio.GetOr(""), input.linkedin.GetOr(""), input.github.GetOr(""), now))
    else None
  }

  /** A whitespace-only title is refused, however the rest looks. */
  lemma BlankClassTitleRefused(id: Id, input: ClassInput, now: int)
    requires input.title.Some? && AllSpace(input.title.value)
    ensures NewClass(id, input, now).None?
  {
  }
}
