/** The documents the four content collections store, as the API returns
    them. A string field a document leaves out is represented by "": every
    reader of these fields (the pages, the update rules) only asks whether
    the value is non-empty. */
module Records {
  import opened Wrappers

  /** A MongoDB ObjectId, as its 24-character text. */
  type Id = string

  /** One entry of a class's `contentLinks`: `text` is the entry's `label`
      field (`label` is a Dafny keyword). */
  datatype Link = Link(text: string, url: string)

  /** A post. Its schema is not part of this model; `likes` and `likedBy`
      start at 0 and [] and `createdAt` at the creation time. */
  datatype Post = Post(
    id: Id,
    title: string,
    content: string,
    image: string,
    likes: int,
    likedBy: seq<Id>,
    createdAt: int)

  /** A training class. `date` and `createdAt` are millisecond timestamps;
      `capacity` is the only numeric field and may be absent. */
  datatype ClassItem = ClassItem(
    id: Id,
    title: string,
    description: string,
    instructor: string,
    date: int,
    time: string,
    location: string,
    capacity: Option<int>,
    contentFile: string,
    contentLinks: seq<Link>,
    createdAt: int)

  /** A CTF preview. `previewType` is kept as text because an update can
      store a value the schema's enum does not list. */
  datatype Ctf = Ctf(
    id: Id,
    title: string,
    author: string,
    preview: string,
    previewType: string,
    videoLink: string,
    description: string,
    createdAt: int)

  /** A club member. */
  datatype Member = Member(
    id: Id,
    name: string,
    role: string,
    image: string,
    bio: string,
    linkedin: string,
    github: string,
    createdAt: int)
}
