/** The admin page's form handling: the blank form of each tab, how an
    item is loaded for editing, the request payload `handleSubmit` builds,
    and the editing of a class's link list. */
module AdminPage {
  import opened Wrappers
  import opened Text
  import opened Records
  import opened Schemas
  import Uploads
  import ClassRoutes
  import opened ClassesPage

  datatype Tab = PostsTab | EventsTab | MembersTab | ClassesTab | CtfsTab | MessagesTab | UsersTab

  /** A value held by the form object. */
  datatype FormValue =
    | Missing                     // `undefined` or `null`
    | Text(s: string)
    | Number(n: int)
    | Strings(items: seq<string>) // an array of strings, such as `likedBy`
    | LinkList(links: seq<Link>)  // an array of `{ label, url }` objects

  /** The form object as its keys are enumerated. */
  type Form = seq<(string, FormValue)>

  /** Entries with the given keys, each holding the empty text. */
  function BlankTexts(keys: seq<string>): (f: Form)
    ensures |f| == |keys|
    ensures forall i :: 0 <= i < |f| ==> f[i] == (keys[i], Text(""))
  {
    seq(|keys|, i requires 0 <= i < |keys| => (keys[i], Text("")))
  }

  /** The three arrays of the blank class form. */
  const ClassArrays: Form := [("contentLinks", LinkList([])), ("linkLabels", Strings([])), ("linkUrls", Strings([]))]

  /** The default preview type of the blank CTF form. */
  const DefaultKind: (string, FormValue) := ("previewType", Text("image"))

  /** `getEmptyForm()`. */
  function EmptyForm(tab: Tab): Form {
    match tab
    case PostsTab => BlankTexts(["title", "content"])
    case EventsTab => BlankTexts(["title", "description", "date", "location"])
    case MembersTab => BlankTexts(["name", "role", "image", "bio", "linkedin", "github"])
    case ClassesTab =>
      BlankTexts(["title", "description", "instructor", "date", "time", "location", "capacity"]) + ClassArrays
    case CtfsTab =>
      BlankTexts(["title", "author"]) + ([DefaultKind] + BlankTexts(["videoLink", "description"]))
    case _ => []
  }

  /** What an entry of the blank form of `tab` may be: the empty text, one
      of the class tab's empty arrays, or the CTF tab's default preview
      type. Only the last two are truthy. */
  predicate BlankEntry(tab: Tab, e: (string, FormValue)) {
    || e.1 == Text("")
    || (tab == ClassesTab && (e.1 == LinkList([]) || e.1 == Strings([])))
    || (tab == CtfsTab && e == DefaultKind)
  }

  /** Every entry of a blank form is blank, apart from the class tab's
      three empty arrays and the CTF tab's `previewType` "image", and those
      are its only truthy entries. The messages and users tabs have no
      form. */
  lemma EmptyFormEntries(tab: Tab)
    ensures forall i :: 0 <= i < |EmptyForm(tab)| ==> BlankEntry(tab, EmptyForm(tab)[i])
    ensures forall i :: 0 <= i < |EmptyForm(tab)| ==>
      (Truthy(EmptyForm(tab)[i].1) <==> IsArray(EmptyForm(tab)[i].1) || EmptyForm(tab)[i] == DefaultKind)
    ensures tab == ClassesTab ==>
      && ("contentLinks", LinkList([])) in EmptyForm(tab)
      && ("linkLabels", Strings([])) in EmptyForm(tab)
      && ("linkUrls", Strings([])) in EmptyForm(tab)
    ensures tab == CtfsTab ==> DefaultKind in EmptyForm(tab)
    ensures tab == MessagesTab || tab == UsersTab <==> EmptyForm(tab) == []
  {
    var f := EmptyForm(tab);
    forall i | 0 <= i < |f|
      ensures BlankEntry(tab, f[i])
      ensures Truthy(f[i].1) <==> IsArray(f[i].1) || f[i] == DefaultKind
    {
      if tab == ClassesTab && i >= 7 {
        assert f[i] == ClassArrays[i - 7];
      } else if tab == CtfsTab && i >= 2 {
        assert f[i] == ([DefaultKind] + BlankTexts(["videoLink", "description"]))[i - 2];
      }
    }
    if tab == ClassesTab {
      assert f[7] == ClassArrays[0] && f[8] == ClassArrays[1] && f[9] == ClassArrays[2];
    } else if tab == CtfsTab {
      assert f[2] == DefaultKind;
    }
  }

  /** JavaScript truthiness; every array is truthy. */
  predicate Truthy(v: FormValue) {
    match v
    case Missing => false
    case Text(s) => s != ""
    case Number(n) => n != 0
    case Strings(_) => true
    case LinkList(_) => true
  }

  predicate IsArray(v: FormValue) {
    v.Strings? || v.LinkList?
  }

  /** The text `FormData.append` stores for a value: `String(value)`. An
      array is its elements' texts joined with commas, and an object's text
      is "[object Object]". */
  function FieldText(v: FormValue): string {
    match v
    case Missing => ""
    case Text(s) => s
    case Number(n) => IntToDecimal(n)
    case Strings(items) => Join(items, ",")
    case LinkList(links) => Join(seq(|links|, i => "[object Object]"), ",")
  }

  /** One entry of a multipart body. A `JsonField` carries
      `JSON.stringify(value)`; the encoding itself is not modelled. */
  datatype Part = Field(name: string, text: string) | JsonField(name: string, value: FormValue) | FilePart(name: string)

  /** What one form entry contributes to the multipart body. */
  function PartOf(key: string, v: FormValue): (r: Option<Part>)
    ensures key == "contentLinks" && IsArray(v) ==> r == Some(JsonField(key, v))
    ensures !(key == "contentLinks" && IsArray(v)) ==> (r.Some? <==> Truthy(v))
    ensures r.Some? ==> !r.value.FilePart? && r.value.name == key
  {
    if key == "contentLinks" && IsArray(v) then Some(JsonField(key, v))
    else if Truthy(v) then Some(Field(key, FieldText(v)))
    else None
  }

  /** The parts of an entry's own request field: one or none. */
  function Sent(o: Option<Part>): seq<Part> {
    if o.Some? then [o.value] else []
  }

  /** The `Object.keys(formData).forEach(...)` loop: each entry sends at
      most one part, and never a file. */
  function Parts(form: Form): (r: seq<Part>)
    ensures |r| <= |form|
    ensures forall i :: 0 <= i < |r| ==> !r[i].FilePart?
  {
    if |form| == 0 then []
    else Sent(PartOf(form[0].0, form[0].1)) + Parts(form[1..])
  }

  /** The parts sent are exactly those of the entries that send one. */
  lemma {:induction false} PartsFromEntries(form: Form)
    ensures forall j :: 0 <= j < |form| && PartOf(form[j].0, form[j].1).Some? ==>
      PartOf(form[j].0, form[j].1).value in Parts(form)
    ensures forall i :: 0 <= i < |Parts(form)| ==>
      exists j :: 0 <= j < |form| && PartOf(form[j].0, form[j].1) == Some(Parts(form)[i])
  {
    if |form| > 0 {
      var tail, rest := form[1..], Parts(form[1..]);
      PartsFromEntries(tail);
      assert forall j :: 1 <= j < |form| ==> form[j] == tail[j - 1];
      forall i | 0 <= i < |rest|
        ensures exists j :: 1 <= j < |form| && PartOf(form[j].0, form[j].1) == Some(rest[i])
      {
        var k :| 0 <= k < |tail| && PartOf(tail[k].0, tail[k].1) == Some(rest[i]);
        assert form[k + 1] == tail[k];
      }
      PartsCons(form, rest, Parts(form));
    } else {
      assert Parts(form) == [];
    }
  }

  /** The step of `PartsFromEntries`: the first entry's part, if any, goes
      in front of the parts of the others. */
  lemma PartsCons(form: Form, rest: seq<Part>, r: seq<Part>)
    requires |form| > 0
    requires forall j :: 1 <= j < |form| && PartOf(form[j].0, form[j].1).Some? ==>
      PartOf(form[j].0, form[j].1).value in rest
    requires forall i :: 0 <= i < |rest| ==>
      exists j :: 1 <= j < |form| && PartOf(form[j].0, form[j].1) == Some(rest[i])
    requires r == Sent(PartOf(form[0].0, form[0].1)) + rest
    ensures forall j :: 0 <= j < |form| && PartOf(form[j].0, form[j].1).Some? ==>
      PartOf(form[j].0, form[j].1).value in r
    ensures forall i :: 0 <= i < |r| ==> exists j :: 0 <= j < |form| && PartOf(form[j].0, form[j].1) == Some(r[i])
  {
    var head := PartOf(form[0].0, form[0].1);
    if head.Some? {
      forall i | 0 <= i < |r| ensures exists j :: 0 <= j < |form| && PartOf(form[j].0, form[j].1) == Some(r[i]) {
        if i > 0 {
          assert r[i] == rest[i - 1];
        }
      }
    } else {
      assert r == rest;
    }
  }

  /** No key appears twice, as in any JavaScript object. */
  predicate DistinctKeys(form: Form) {
    forall i, j :: 0 <= i < j < |form| ==> form[i].0 != form[j].0
  }

  /** A falsy entry other than the link list sends nothing under its key. */
  lemma FalsyFieldOmitted(form: Form, j: nat)
    requires DistinctKeys(form) && j < |form|
    requires !Truthy(form[j].1) && !(form[j].0 == "contentLinks" && IsArray(form[j].1))
    ensures forall i :: 0 <= i < |Parts(form)| ==> Parts(form)[i].name != form[j].0
  {
    var r := Parts(form);
    PartsFromEntries(form);
    forall i | 0 <= i < |r| ensures r[i].name != form[j].0 {
      var k :| 0 <= k < |form| && PartOf(form[k].0, form[k].1) == Some(r[i]);
      assert k != j;
    }
  }

  /** An array under `contentLinks` is always sent, even when empty. */
  lemma LinkListAlwaysSent(form: Form, j: nat)
    requires j < |form| && form[j].0 == "contentLinks" && IsArray(form[j].1)
    ensures JsonField("contentLinks", form[j].1) in Parts(form)
  {
    PartsFromEntries(form);
  }

  /** The tabs whose submit builds a `FormData`. */
  predicate SendsMultipart(tab: Tab) {
    tab == PostsTab || tab == EventsTab || tab == ClassesTab || tab == CtfsTab
  }

  /** The field an attached file is appended under. */
  function FileFieldName(tab: Tab): string {
    if tab == CtfsTab then "preview" else if tab == ClassesTab then "contentFile" else "image"
  }

  /** The name the admin page sends a file under is the one the route's
      upload reads. */
  lemma FileFieldMatchesRoute()
    ensures FileFieldName(PostsTab) == Uploads.FieldName(Uploads.PostImage)
    ensures FileFieldName(CtfsTab) == Uploads.FieldName(Uploads.CtfPreview)
    ensures FileFieldName(ClassesTab) == Uploads.FieldName(Uploads.ClassContent)
  {
  }

  datatype Payload = Multipart(parts: seq<Part>) | Plain(form: Form)

  /** `handleSubmit`'s request body; `hasFile` says whether a file was
      picked. */
  function BuildPayload(tab: Tab, form: Form, hasFile: bool): (p: Payload)
    ensures p.Multipart? <==> SendsMultipart(tab)
    ensures p.Plain? ==> p.form == form
    ensures p.Multipart? && !hasFile ==> p.parts == Parts(form) && forall i :: 0 <= i < |p.parts| ==> !p.parts[i].FilePart?
    ensures p.Multipart? && hasFile ==>
      |p.parts| > 0 && p.parts[|p.parts| - 1] == FilePart(FileFieldName(tab))
      && p.parts[..|p.parts| - 1] == Parts(form)
      && forall i :: 0 <= i < |p.parts| - 1 ==> !p.parts[i].FilePart?
  {
    if SendsMultipart(tab) then
      var parts := Parts(form);
      if hasFile then
        var all := parts + [FilePart(FileFieldName(tab))];
        assert all[..|all| - 1] == parts;
        Multipart(all)
      else Multipart(parts)
    else Plain(form)
  }

  /** The loop handles each entry on its own. */
  lemma {:induction false} PartsAppend(a: Form, b: Form)
    ensures Parts(a + b) == Parts(a) + Parts(b)
    decreases |a|
  {
    if |a| == 0 {
      assert a + b == b;
    } else {
      assert (a + b)[1..] == a[1..] + b;
      PartsAppend(a[1..], b);
    }
  }

  /** A form of blank texts sends nothing. */
  lemma {:induction false} BlankTextsSendNothing(form: Form)
    requires forall i :: 0 <= i < |form| ==> form[i].1 == Text("")
    ensures Parts(form) == []
    decreases |form|
  {
    if |form| > 0 {
      BlankTextsSendNothing(form[1..]);
    }
  }

  /** A blank class form sends the empty link list as JSON and, because
      empty arrays are truthy, two empty fields; every blank text is left
      out. */
  lemma BlankClassPayload()
    ensures BuildPayload(ClassesTab, EmptyForm(ClassesTab), false)
         == Multipart([JsonField("contentLinks", LinkList([])), Field("linkLabels", ""), Field("linkUrls", "")])
  {
    var blank := BlankTexts(["title", "description", "instructor", "date", "time", "location", "capacity"]);
    BlanksThenArrays(blank, EmptyForm(ClassesTab));
  }

  /** Blank texts followed by the class arrays send the arrays' parts. */
  lemma BlanksThenArrays(blank: Form, form: Form)
    requires forall i :: 0 <= i < |blank| ==> blank[i].1 == Text("")
    requires form == blank + ClassArrays
    ensures BuildPayload(ClassesTab, form, false)
         == Multipart([JsonField("contentLinks", LinkList([])), Field("linkLabels", ""), Field("linkUrls", "")])
  {
    BlankTextsSendNothing(blank);
    ArraysSent();
    SilentPrefix(blank, ClassArrays);
    PayloadOfParts(ClassesTab, form, Parts(ClassArrays));
  }

  /** A prefix that sends nothing leaves the parts of the rest. */
  lemma SilentPrefix(a: Form, b: Form)
    requires Parts(a) == []
    ensures Parts(a + b) == Parts(b)
  {
    PartsAppend(a, b);
  }

  /** A multipart tab without a file sends exactly the form's parts. */
  lemma PayloadOfParts(tab: Tab, form: Form, parts: seq<Part>)
    requires SendsMultipart(tab) && Parts(form) == parts
    ensures BuildPayload(tab, form, false) == Multipart(parts)
  {
  }

  /** `Parts` takes the entries one at a time, in key order. */
  lemma PartsHead(e: (string, FormValue), form: Form)
    ensures Parts([e] + form) == Sent(PartOf(e.0, e.1)) + Parts(form)
  {
    assert ([e] + form)[1..] == form;
  }

  /** An empty string array sends one empty field under its key, unless
      the key is the link list's. */
  lemma EmptyArrayPart(key: string)
    requires |key| != |"contentLinks"|
    ensures PartOf(key, Strings([])) == Some(Field(key, ""))
  {
    assert FieldText(Strings([])) == "";
  }

  /** The three arrays of the blank class form each send one part. */
  lemma ArraysSent()
    ensures Parts(ClassArrays)
         == [JsonField("contentLinks", LinkList([])), Field("linkLabels", ""), Field("linkUrls", "")]
  {
    EmptyArrayPart("linkUrls");
    EmptyArrayPart("linkLabels");
    PartsOfThree(ClassArrays[0], ClassArrays[1], ClassArrays[2]);
    assert [ClassArrays[0], ClassArrays[1], ClassArrays[2]] == ClassArrays;
  }

  /** The parts of a three-entry form, entry by entry. */
  lemma PartsOfThree(x: (string, FormValue), y: (string, FormValue), z: (string, FormValue))
    ensures Parts([x, y, z]) == Sent(PartOf(x.0, x.1)) + Sent(PartOf(y.0, y.1)) + Sent(PartOf(z.0, z.1))
  {
    var f := [x, y, z];
    PartsStep(f);
    PartsStep(f[1..]);
    PartsStep(f[2..]);
    assert f[1..][1..] == f[2..] && f[2..][1..] == [];
  }

  /** One unfolding of `Parts`. */
  lemma PartsStep(form: Form)
    requires |form| > 0
    ensures Parts(form) == Sent(PartOf(form[0].0, form[0].1)) + Parts(form[1..])
  {
  }

  /** A blank CTF form sends only its default preview type. */
  lemma BlankCtfPayload()
    ensures BuildPayload(CtfsTab, EmptyForm(CtfsTab), false) == Multipart([Field("previewType", "image")])
  {
    BlanksAroundKind(BlankTexts(["title", "author"]), BlankTexts(["videoLink", "description"]), EmptyForm(CtfsTab));
  }

  /** Blank texts around the default preview type send only that type. */
  lemma BlanksAroundKind(head: Form, tail: Form, form: Form)
    requires forall i :: 0 <= i < |head| ==> head[i].1 == Text("")
    requires forall i :: 0 <= i < |tail| ==> tail[i].1 == Text("")
    requires form == head + ([DefaultKind] + tail)
    ensures BuildPayload(CtfsTab, form, false) == Multipart([Field("previewType", "image")])
  {
    BlankTextsSendNothing(head);
    BlankTextsSendNothing(tail);
    KindBetweenBlanks(head, tail);
    PayloadOfParts(CtfsTab, form, [Field("previewType", "image")]);
  }

  /** Between forms that send nothing, the default preview type is the one
      part sent. */
  lemma KindBetweenBlanks(head: Form, tail: Form)
    requires Parts(head) == [] && Parts(tail) == []
    ensures Parts(head + ([DefaultKind] + tail)) == [Field("previewType", "image")]
  {
    SilentPrefix(head, [DefaultKind] + tail);
    PartsHead(DefaultKind, tail);
    assert Sent(PartOf(DefaultKind.0, DefaultKind.1)) == [Field("previewType", "image")];
  }

  /** The JSON text of a link list reaches the classes route as text; with
      `decode` undoing `encode`, the route stores exactly the list sent, and
      an empty list sent on update clears the stored one. */
  lemma SentLinksStored(ls: seq<Link>, encode: seq<Link> -> string, decode: string -> Option<seq<Link>>)
    requires encode(ls) != "" && decode(encode(ls)) == Some(ls)
    ensures ClassRoutes.LinksOnCreate(ClassRoutes.LinkText(encode(ls)), decode) == Some(ls)
    ensures ClassRoutes.LinksOnUpdate(ClassRoutes.LinkText(encode(ls)), decode) == ClassRoutes.Replace(ls)
  {
  }

  /** `handleEdit`'s link conversion: a string `s` becomes
      `{ label: s, url: s }`, an object stays. */
  function NormaliseLinks(ls: seq<ShownLink>): (r: seq<Link>)
    ensures |r| == |ls|
    ensures forall i :: 0 <= i < |ls| && ls[i].Legacy? ==> r[i] == Link(ls[i].value, ls[i].value)
    ensures forall i :: 0 <= i < |ls| && ls[i].Structured? ==> r[i] == ls[i].link
  {
    seq(|ls|, i requires 0 <= i < |ls| => match ls[i] case Legacy(s) => Link(s, s) case Structured(k) => k)
  }

  /** Loading a class for editing does not change how a non-empty link is
      rendered on the classes page. */
  lemma NormalisedLinksRenderAlike(ls: seq<ShownLink>, i: nat)
    requires i < |ls| && ls[i] != Legacy("")
    ensures LinkHref(Structured(NormaliseLinks(ls)[i])) == LinkHref(ls[i])
    ensures LinkLabel(Structured(NormaliseLinks(ls)[i])) == LinkLabel(ls[i])
  {
  }

  /** Links that are already objects come back unchanged. */
  lemma NormaliseKeepsObjects(ls: seq<Link>)
    ensures NormaliseLinks(seq(|ls|, i requires 0 <= i < |ls| => Structured(ls[i]))) == ls
  {
  }

  /** The preview shown when an item is opened for editing:
      `item.image || item.preview || item.contentFile || ''`. */
  function PreviewOnEdit(image: string, preview: string, contentFile: string): (r: string)
    ensures r == "" <==> image == "" && preview == "" && contentFile == ""
    ensures image != "" ==> r == image
    ensures image == "" && preview != "" ==> r == preview
    ensures image == "" && preview == "" ==> r == contentFile
  {
    if image != "" then image else if preview != "" then preview else contentFile
  }

  /** "+ Add Link". */
  function AddLink(ls: seq<Link>): (r: seq<Link>)
    ensures |r| == |ls| + 1 && r[..|ls|] == ls && r[|ls|] == Link("", "")
  {
    ls + [Link("", "")]
  }

  /** "Remove" on entry `idx`: `filter((_, i) => i !== idx)`. */
  function RemoveLink(ls: seq<Link>, idx: int): (r: seq<Link>)
    ensures |r| == if 0 <= idx < |ls| then |ls| - 1 else |ls|
  {
    if |ls| == 0 then []
    else (if idx == 0 then [] else [ls[0]]) + RemoveLink(ls[1..], idx - 1)
  }

  /** Removing keeps every other entry, in order. */
  lemma {:induction false} RemoveLinkIsSlice(ls: seq<Link>, idx: int)
    ensures 0 <= idx < |ls| ==> RemoveLink(ls, idx) == ls[..idx] + ls[idx + 1..]
    ensures !(0 <= idx < |ls|) ==> RemoveLink(ls, idx) == ls
    decreases |ls|
  {
    if |ls| > 0 {
      var t := ls[1..];
      var rest := RemoveLink(t, idx - 1);
      assert RemoveLink(ls, idx) == (if idx == 0 then [] else [ls[0]]) + rest;
      RemoveLinkIsSlice(t, idx - 1);
      if 0 < idx < |ls| {
        SliceCons(ls[0], t, idx);
        assert ls == [ls[0]] + t;
      } else if idx == 0 {
        assert ls[..0] + ls[1..] == t;
      } else {
        assert rest == t;
        assert ls == [ls[0]] + t;
      }
    }
  }

  /** Cutting position `idx` out of `[l] + t` keeps `l` in front of `t`
      with position `idx - 1` cut out. */
  lemma SliceCons(l: Link, t: seq<Link>, idx: int)
    requires 0 < idx <= |t|
    ensures ([l] + t)[..idx] + ([l] + t)[idx + 1..] == [l] + (t[..idx - 1] + t[idx..])
  {
    assert ([l] + t)[..idx] == [l] + t[..idx - 1];
    assert ([l] + t)[idx + 1..] == t[idx..];
  }

  /** Removing a link just added gives the list back. */
  lemma RemoveAddedLink(ls: seq<Link>)
    ensures RemoveLink(AddLink(ls), |ls|) == ls
  {
    RemoveLinkIsSlice(AddLink(ls), |ls|);
  }

  /** Typing in the label box of entry `idx`. */
  function SetLinkText(ls: seq<Link>, idx: nat, text: string): (r: seq<Link>)
    requires idx < |ls|
    ensures |r| == |ls| && r[idx] == Link(text, ls[idx].url)
    ensures forall i :: 0 <= i < |ls| && i != idx ==> r[i] == ls[i]
  {
    ls[idx := ls[idx].(text := text)]
  }

  /** Typing in the url box of entry `idx`. */
  function SetLinkUrl(ls: seq<Link>, idx: nat, url: string): (r: seq<Link>)
    requires idx < |ls|
    ensures |r| == |ls| && r[idx] == Link(ls[idx].text, url)
    ensures forall i :: 0 <= i < |ls| && i != idx ==> r[i] == ls[i]
  {
    ls[idx := ls[idx].(url := url)]
  }

  /** The two boxes edit independent fields. */
  lemma EditsCommute(ls: seq<Link>, idx: nat, text: string, url: string)
    requires idx < |ls|
    ensures SetLinkUrl(SetLinkText(ls, idx, text), idx, url) == SetLinkText(SetLinkUrl(ls, idx, url), idx, text)
  {
  }

  /** A link added and then given a label and a url passes the schema's
      check on link entries, if the list did before. */
  lemma FilledNewLinkValid(ls: seq<Link>, text: string, url: string)
    requires CompleteLinks(ls) && text != "" && url != ""
    ensures CompleteLinks(SetLinkUrl(SetLinkText(AddLink(ls), |ls|, text), |ls|, url))
  {
  }

  /** A link added and left blank makes the class fail validation on
      create. */
  lemma BlankNewLinkInvalid(ls: seq<Link>)
    ensures !CompleteLinks(AddLink(ls))
  {
    assert !CompleteLink(AddLink(ls)[|ls|]);
  }
}

/** The admin page's edit preview for items stored by the CTF routes. */
module AdminCtfPreview {
  import opened Text
  import opened Records
  import opened Schemas
  import Uploads
  import Store
  import CtfRoutes
  import AdminPage

  /** A CTF created with a kept upload opens for editing showing that
      upload: a CTF has no `image` or `contentFile`, so the preview is the
      stored `/uploads/...` reference path. */
  lemma EditPreviewOfStoredCtf(store: map<Id, Ctf>, gate: Store.Gate, a: Uploads.Attachment, body: CtfRoutes.CtfBody, id: Id, now: int)
    requires id !in store
    ensures var e := CtfRoutes.Create(store, gate, a, body, id, now);
      e.status == 201 && Uploads.Receive(Uploads.CtfPreview, a).Stored? ==>
      && AdminPage.PreviewOnEdit("", e.store[id].preview, "") == Uploads.Receive(Uploads.CtfPreview, a).path
      && StartsWith(AdminPage.PreviewOnEdit("", e.store[id].preview, ""), Uploads.UploadsDir)
  {
    var e := CtfRoutes.Create(store, gate, a, body, id, now);
    var r := Uploads.Receive(Uploads.CtfPreview, a);
    if e.status == 201 && r.Stored? {
      CtfRoutes.CreateCopiesFields(store, gate, a, body, id, now);
      assert e.store[id] == e.body.item;
      Uploads.StoredUnderUploads(Uploads.CtfPreview, a);
      PreviewOfCtf(e.store[id].preview, r.path);
    }
  }

  /** A CTF's edit preview is its `preview` field. */
  lemma PreviewOfCtf(preview: string, path: string)
    requires preview == path && StartsWith(path, Uploads.UploadsDir)
    ensures AdminPage.PreviewOnEdit("", preview, "") == path
  {
  }
}
