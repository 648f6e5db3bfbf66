/**
 * The admin API of the Workers backend: the singleton-row upserts (personal details,
 * about, notification settings), the project merge, the list-field parsing of
 * experience and project bodies, the certification type default and the upload
 * naming. List columns are kept decoded: `JSON.stringify` on the way in and
 * `JSON.parse` on the way out are taken to be inverse.
 */
module AdminRoutes {
  import opened Wrappers
  import Js
  import Text
  import Store
  import ListFields

  type Rows<T> = seq<Store.Row<T>>

  const OK := 200
  const BAD_REQUEST := 400
  const NOT_FOUND := 404
  const SERVER_ERROR := 500

  // ---------------------------------------------------------------- singleton upserts

  /**
   * Update the row `ORDER BY id DESC LIMIT 1` finds, or insert when the table is empty.
   * Every column of that row takes the new value.
   */
  method UpsertLatest<T>(t: Store.Table<T>, data: T)
    requires t.Valid()
    modifies t
    ensures t.Valid()
    ensures old(t.rows) != [] ==> t.rows == Store.UpdateById(old(t.rows), Store.Latest(old(t.rows)).value.id, data)
    ensures old(t.rows) == [] ==> t.rows == [Store.Row(old(t.nextId), data)]
  {
    var existing := Store.Latest(t.rows);
    if existing.Some? {
      t.Update(existing.value.id, data);
    } else {
      var _ := t.Insert(data);
    }
  }

  /** Update the row an unordered `LIMIT 1` finds (the first stored), or insert when the table is empty. */
  method UpsertFirst<T>(t: Store.Table<T>, data: T)
    requires t.Valid()
    modifies t
    ensures t.Valid()
    ensures old(t.rows) != [] ==> t.rows == Store.UpdateById(old(t.rows), old(t.rows)[0].id, data)
    ensures old(t.rows) == [] ==> t.rows == [Store.Row(old(t.nextId), data)]
    ensures t.rows == Upserted(old(t.rows), old(t.nextId), data)
  {
    var existing := Store.First(t.rows);
    if existing.Some? {
      t.Update(existing.value.id, data);
    } else {
      var _ := t.Insert(data);
    }
  }

  /** The rows after `UpsertFirst`: the first stored row rewritten, or one new row on an empty table. */
  function Upserted<T>(rows: Rows<T>, nextId: nat, data: T): (r: Rows<T>)
    ensures rows == [] ==> r == [Store.Row(nextId, data)]
    ensures rows != [] ==> |r| == |rows| && r[0] == Store.Row(rows[0].id, data)
    ensures rows != [] ==> forall i :: 0 < i < |rows| && rows[i].id != rows[0].id ==> r[i] == rows[i]
  {
    if rows == [] then [Store.Row(nextId, data)] else Store.UpdateById(rows, rows[0].id, data)
  }

  /** After updating the newest row, the newest row holds exactly the new data. */
  lemma {:induction false} LatestSeesLatestUpdate<T>(rows: Rows<T>, data: T)
    requires Store.IdsIncreasing(rows) && rows != []
    ensures Store.Latest(Store.UpdateById(rows, Store.Latest(rows).value.id, data)) == Some(Store.Row(rows[|rows| - 1].id, data))
  {
    Store.LatestIsLast(rows);
    var u := Store.UpdateById(rows, rows[|rows| - 1].id, data);
    assert Store.IdsIncreasing(u);
    Store.LatestIsLast(u);
  }

  /** After updating the first row of a table with two or more rows, the newest row still holds its old data: a write through the unordered `LIMIT 1` is not what the `ORDER BY id DESC` read returns. */
  lemma {:induction false} LatestMissesFirstUpdate<T>(rows: Rows<T>, data: T)
    requires Store.IdsIncreasing(rows) && |rows| >= 2
    ensures Store.Latest(Store.UpdateById(rows, rows[0].id, data)) == Some(rows[|rows| - 1])
  {
    var u := Store.UpdateById(rows, rows[0].id, data);
    assert Store.IdsIncreasing(u);
    Store.LatestIsLast(u);
  }

  /** With a single row the two queries agree, so the write is read back. */
  lemma LatestSeesFirstUpdateOfSingleRow<T>(rows: Rows<T>, data: T)
    requires |rows| == 1
    ensures Store.Latest(Store.UpdateById(rows, rows[0].id, data)) == Some(Store.Row(rows[0].id, data))
  {
  }

  // ---------------------------------------------------------------- personal details

  datatype PersonalDetails = PersonalDetails(
    name: Js.Value, email: Js.Value, phone: Js.Value, location: Js.Value, bio: Js.Value,
    workContact: Js.Value, portfolioUrl: Js.Value, linkedinUrl: Js.Value, githubUrl: Js.Value,
    gitlabUrl: Js.Value, orcidUrl: Js.Value, googleScholarUrl: Js.Value, profilePicture: Js.Value)

  /** `GET` personal details: the newest row, or None for the `{}` answer on an empty table. */
  function GetPersonalDetails(rows: Rows<PersonalDetails>): (r: Option<Store.Row<PersonalDetails>>)
    ensures r.None? <==> rows == []
    ensures r.Some? ==> r.value in rows && forall i :: 0 <= i < |rows| ==> rows[i].id <= r.value.id
  {
    Store.Latest(rows)
  }

  /** `PUT` personal details: overwrite the newest row with the whole body, or insert it; answers with the body's picture. */
  method UpdatePersonalDetails(t: Store.Table<PersonalDetails>, body: PersonalDetails) returns (profilePicture: Js.Value)
    requires t.Valid()
    modifies t
    ensures t.Valid()
    ensures old(t.rows) != [] ==> t.rows == Store.UpdateById(old(t.rows), Store.Latest(old(t.rows)).value.id, body)
    ensures old(t.rows) == [] ==> t.rows == [Store.Row(old(t.nextId), body)]
    ensures profilePicture == body.profilePicture
  {
    UpsertLatest(t, body);
    profilePicture := body.profilePicture;
  }

  /** Reading the personal details right after an update gives exactly the body sent. */
  lemma PersonalDetailsReadBack(rows: Rows<PersonalDetails>, nextId: nat, body: PersonalDetails)
    requires Store.IdsIncreasing(rows)
    ensures rows != [] ==> GetPersonalDetails(Store.UpdateById(rows, Store.Latest(rows).value.id, body)).value.data == body
    ensures rows == [] ==> GetPersonalDetails([Store.Row(nextId, body)]).value.data == body
  {
    if rows != [] {
      LatestSeesLatestUpdate(rows, body);
    }
  }

  // ---------------------------------------------------------------- about

  datatype About = About(summary: Js.Value, experienceYears: Js.Value, projectsCompleted: Js.Value, companiesCount: Js.Value)

  // `GET` about reads `Store.Latest`, the newest row, or None for `{}`.

  /** `PUT` about: update the first stored row, or insert. */
  method UpdateAbout(t: Store.Table<About>, body: About)
    requires t.Valid()
    modifies t
    ensures t.Valid()
    ensures old(t.rows) != [] ==> t.rows == Store.UpdateById(old(t.rows), old(t.rows)[0].id, body)
    ensures old(t.rows) == [] ==> t.rows == [Store.Row(old(t.nextId), body)]
  {
    UpsertFirst(t, body);
  }

  // ---------------------------------------------------------------- notification settings

  datatype SettingsBody = SettingsBody(
    emailNotifications: Js.Value, whatsappNotifications: Js.Value,
    notificationEmail: Js.Value, whatsappNumber: Js.Value)

  datatype Settings = Settings(
    emailNotifications: int, whatsappNotifications: int,
    notificationEmail: Js.Value, whatsappNumber: Js.Value)

  /** `flag ? 1 : 0`. */
  function Flag(v: Js.Value): (r: int)
    ensures r == 0 || r == 1
    ensures r == 1 <==> Js.Truthy(v)
  {
    if Js.Truthy(v) then 1 else 0
  }

  /** The row the update writes: both flags become 0 or 1, the two targets are stored as sent. */
  function StoredSettings(body: SettingsBody): (s: Settings)
    ensures s.emailNotifications == Flag(body.emailNotifications)
    ensures s.whatsappNotifications == Flag(body.whatsappNotifications)
    ensures s.notificationEmail == body.notificationEmail && s.whatsappNumber == body.whatsappNumber
  {
    Settings(Flag(body.emailNotifications), Flag(body.whatsappNotifications), body.notificationEmail, body.whatsappNumber)
  }

  /** `GET` settings: the row with the highest id, or both flags 0 (the other fields absent) on an empty table. */
  function GetNotificationSettings(rows: Rows<Settings>): (s: Settings)
    ensures rows == [] ==> s == Settings(0, 0, Js.Undefined, Js.Undefined)
    ensures rows != [] ==> s == Store.Latest(rows).value.data && exists i :: Store.IsLatest(rows, i) && s == rows[i].data
  {
    match Store.Latest(rows)
    case None => Settings(0, 0, Js.Undefined, Js.Undefined)
    case Some(row) => row.data
  }

  /** `PUT` settings: update the first stored row with the normalised body, or insert it. */
  method UpdateNotificationSettings(t: Store.Table<Settings>, body: SettingsBody)
    requires t.Valid()
    modifies t
    ensures t.Valid()
    ensures t.rows == Upserted(old(t.rows), old(t.nextId), StoredSettings(body))
    ensures old(t.rows) != [] ==> t.rows == Store.UpdateById(old(t.rows), old(t.rows)[0].id, StoredSettings(body))
    ensures old(t.rows) == [] ==> t.rows == [Store.Row(old(t.nextId), StoredSettings(body))]
  {
    UpsertFirst(t, StoredSettings(body));
  }

  predicate FlagsBinary(rows: Rows<Settings>) {
    forall i :: 0 <= i < |rows| ==>
      rows[i].data.emailNotifications in {0, 1} && rows[i].data.whatsappNotifications in {0, 1}
  }

  /**
   * Flags stay 0 or 1: if every stored row was written by the update, so is every row
   * after another update or the first insert, and the getter, before and after, only
   * ever reports 0 or 1 (the empty-table default included).
   */
  lemma {:induction false} SettingsFlagsStayBinary(rows: Rows<Settings>, nextId: nat, body: SettingsBody)
    requires FlagsBinary(rows)
    ensures FlagsBinary(Upserted(rows, nextId, StoredSettings(body)))
    ensures GetNotificationSettings(rows).emailNotifications in {0, 1}
    ensures GetNotificationSettings(rows).whatsappNotifications in {0, 1}
    ensures GetNotificationSettings(Upserted(rows, nextId, StoredSettings(body))).emailNotifications in {0, 1}
    ensures GetNotificationSettings(Upserted(rows, nextId, StoredSettings(body))).whatsappNotifications in {0, 1}
  {
    var after := Upserted(rows, nextId, StoredSettings(body));
    forall i | 0 <= i < |after|
      ensures after[i].data.emailNotifications in {0, 1} && after[i].data.whatsappNotifications in {0, 1}
    {
      if rows != [] && rows[i].id != rows[0].id {
        assert after[i] == rows[i];
      }
    }
    if rows != [] {
      assert Store.Latest(rows).value in rows;
    }
    assert Store.Latest(after).value in after;
  }

  /**
   * While the table holds at most the one row the update itself maintains, the getter
   * reads back exactly what was saved; the table then holds exactly one row.
   */
  lemma {:induction false} SettingsReadBack(rows: Rows<Settings>, nextId: nat, body: SettingsBody)
    requires |rows| <= 1
    ensures |Upserted(rows, nextId, StoredSettings(body))| == 1
    ensures GetNotificationSettings(Upserted(rows, nextId, StoredSettings(body))) == StoredSettings(body)
  {
    var after := Upserted(rows, nextId, StoredSettings(body));
    assert Store.Latest(after).value == after[0];
  }

  // ---------------------------------------------------------------- experience

  datatype Experience = Experience(title: Js.Value, company: Js.Value, period: Js.Value, responsibilities: seq<string>, location: Js.Value)

  datatype ExperienceBody = ExperienceBody(title: Js.Value, company: Js.Value, period: Js.Value, responsibilities: ListInput, location: Js.Value)

  type ListInput = ListFields.ListInput

  /** `responsibilities` as stored: an array as sent, or the non-blank lines of a string. */
  function Responsibilities(input: ListInput): (r: Result<seq<string>, string>)
    ensures input.ArrayInput? ==> r == Ok(input.items)
    ensures input.StringInput? ==> r == Ok(ListFields.ParseLines(input.text))
    ensures input.Absent? <==> r.Err?
  {
    ListFields.ListFromInput(input, ListFields.ParseLines)
  }

  /** `POST` experience: a body without responsibilities fails with 500 and stores nothing. */
  method CreateExperience(t: Store.Table<Experience>, body: ExperienceBody) returns (status: int)
    requires t.Valid()
    modifies t
    ensures t.Valid()
    ensures body.responsibilities.Absent? ==> status == SERVER_ERROR && t.rows == old(t.rows)
    ensures !body.responsibilities.Absent? ==> status == OK && t.rows == old(t.rows) + [Store.Row(old(t.nextId),
      Experience(body.title, body.company, body.period, Responsibilities(body.responsibilities).value, body.location))]
  {
    var resp := Responsibilities(body.responsibilities);
    if resp.Err? {
      return SERVER_ERROR;
    }
    var _ := t.Insert(Experience(body.title, body.company, body.period, resp.value, body.location));
    status := OK;
  }

  /** `PUT` experience/:id: a full overwrite of the row with that key (none, if it does not exist). */
  method UpdateExperience(t: Store.Table<Experience>, id: nat, body: ExperienceBody) returns (status: int)
    requires t.Valid()
    modifies t
    ensures t.Valid()
    ensures body.responsibilities.Absent? ==> status == SERVER_ERROR && t.rows == old(t.rows)
    ensures !body.responsibilities.Absent? ==> status == OK && t.rows == Store.UpdateById(old(t.rows), id,
      Experience(body.title, body.company, body.period, Responsibilities(body.responsibilities).value, body.location))
  {
    var resp := Responsibilities(body.responsibilities);
    if resp.Err? {
      return SERVER_ERROR;
    }
    t.Update(id, Experience(body.title, body.company, body.period, resp.value, body.location));
    status := OK;
  }

  // ---------------------------------------------------------------- projects

  datatype Project = Project(title: Js.Value, description: Js.Value, imageUrl: Js.Value, tags: seq<string>, cadFile: Js.Value)

  datatype ProjectBody = ProjectBody(title: Js.Value, description: Js.Value, tags: ListInput, imageUrl: Js.Value, cadFile: Js.Value)

  /** `tags` as stored: an array as sent, or the trimmed non-empty comma-separated pieces of a string. */
  function Tags(input: ListInput): (r: Result<seq<string>, string>)
    ensures input.ArrayInput? ==> r == Ok(input.items)
    ensures input.StringInput? ==> r == Ok(ListFields.ParseTags(input.text))
    ensures input.Absent? <==> r.Err?
  {
    ListFields.ListFromInput(input, ListFields.ParseTags)
  }

  /** The `updateProject` merge: the picture and CAD file keep their stored values when the body leaves them out (`undefined`; an explicit null is written); every other field comes from the body. */
  function MergeProject(existing: Project, body: ProjectBody, tags: seq<string>): (p: Project)
    ensures p.title == body.title && p.description == body.description && p.tags == tags
    ensures p.imageUrl == if body.imageUrl.Undefined? then existing.imageUrl else body.imageUrl
    ensures p.cadFile == if body.cadFile.Undefined? then existing.cadFile else body.cadFile
  {
    Project(body.title, body.description,
      if body.imageUrl != Js.Undefined then body.imageUrl else existing.imageUrl,
      tags,
      if body.cadFile != Js.Undefined then body.cadFile else existing.cadFile)
  }

  /**
   * Across successive edits each file is sticky: after two merges a file is the one the
   * later body sent, else the one the earlier body sent, else the stored one; every other
   * field is the later body's. A body that omits both files never touches them.
   */
  lemma MergeProjectKeepsFiles(existing: Project, b1: ProjectBody, t1: seq<string>, b2: ProjectBody, t2: seq<string>)
    ensures var p := MergeProject(MergeProject(existing, b1, t1), b2, t2);
      && p.imageUrl == (if !b2.imageUrl.Undefined? then b2.imageUrl else if !b1.imageUrl.Undefined? then b1.imageUrl else existing.imageUrl)
      && p.cadFile == (if !b2.cadFile.Undefined? then b2.cadFile else if !b1.cadFile.Undefined? then b1.cadFile else existing.cadFile)
      && p.title == b2.title && p.description == b2.description && p.tags == t2
    ensures b1.imageUrl.Undefined? && b1.cadFile.Undefined? ==>
      MergeProject(existing, b1, t1).imageUrl == existing.imageUrl && MergeProject(existing, b1, t1).cadFile == existing.cadFile
  {
  }

  method CreateProject(t: Store.Table<Project>, body: ProjectBody) returns (status: int)
    requires t.Valid()
    modifies t
    ensures t.Valid()
    ensures body.tags.Absent? ==> status == SERVER_ERROR && t.rows == old(t.rows)
    ensures !body.tags.Absent? ==> status == OK && t.rows == old(t.rows) + [Store.Row(old(t.nextId),
      Project(body.title, body.description, body.imageUrl, Tags(body.tags).value, body.cadFile))]
  {
    var tags := Tags(body.tags);
    if tags.Err? {
      return SERVER_ERROR;
    }
    var _ := t.Insert(Project(body.title, body.description, body.imageUrl, tags.value, body.cadFile));
    status := OK;
  }

  /** `PUT` projects/:id: tags are parsed first (500 if absent), then 404 for an unknown key, else the merged row is written. */
  method UpdateProject(t: Store.Table<Project>, id: nat, body: ProjectBody) returns (status: int)
    requires t.Valid()
    modifies t
    ensures t.Valid()
    ensures body.tags.Absent? ==> status == SERVER_ERROR && t.rows == old(t.rows)
    ensures !body.tags.Absent? && !Store.HasId(old(t.rows), id) ==> status == NOT_FOUND && t.rows == old(t.rows)
    ensures !body.tags.Absent? && Store.HasId(old(t.rows), id) ==>
      (status == OK && t.rows == Store.UpdateById(old(t.rows), id,
         MergeProject(Store.FindById(old(t.rows), id).value.data, body, Tags(body.tags).value)))
  {
    var tags := Tags(body.tags);
    if tags.Err? {
      return SERVER_ERROR;
    }
    var existing := Store.FindById(t.rows, id);
    if existing.None? {
      return NOT_FOUND;
    }
    t.Update(id, MergeProject(existing.value.data, body, tags.value));
    status := OK;
  }

  // ---------------------------------------------------------------- certifications

  datatype Certification = Certification(name: Js.Value, issuer: Js.Value, date: Js.Value, link: Js.Value, kind: Js.Value, embedCode: Js.Value)

  /** `type || 'Certification'`. */
  function CertificationType(kind: Js.Value): (r: Js.Value)
    ensures Js.Truthy(kind) ==> r == kind
    ensures !Js.Truthy(kind) ==> r == Js.Str("Certification")
    ensures Js.Truthy(r)
  {
    Js.OrString(kind, "Certification")
  }

  /** The stored form of a body: only the type is defaulted. */
  function StoredCertification(body: Certification): (c: Certification)
    ensures c == body.(kind := CertificationType(body.kind))
  {
    body.(kind := CertificationType(body.kind))
  }

  method CreateCertification(t: Store.Table<Certification>, body: Certification)
    requires t.Valid()
    modifies t
    ensures t.Valid()
    ensures t.rows == old(t.rows) + [Store.Row(old(t.nextId), StoredCertification(body))]
  {
    var _ := t.Insert(StoredCertification(body));
  }

  method UpdateCertification(t: Store.Table<Certification>, id: nat, body: Certification)
    requires t.Valid()
    modifies t
    ensures t.Valid()
    ensures t.rows == Store.UpdateById(old(t.rows), id, StoredCertification(body))
  {
    t.Update(id, StoredCertification(body));
  }

  /** Every certification either route stores has a truthy type. */
  lemma StoredCertificationTyped(body: Certification)
    ensures Js.Truthy(StoredCertification(body).kind)
    ensures Js.Truthy(body.kind) ==> StoredCertification(body) == body
  {
  }

  // ---------------------------------------------------------------- deletes

  /** `DELETE` :id on any table: removes the row with that key and nothing else. */
  method DeleteRoute<T>(t: Store.Table<T>, id: nat)
    requires t.Valid()
    modifies t
    ensures t.Valid()
    ensures t.rows == Store.DeleteById(old(t.rows), id)
  {
    t.Delete(id);
  }

  // ---------------------------------------------------------------- upload

  datatype UploadFile = UploadFile(name: string)

  datatype UploadResult = NoFile | Uploaded(url: string, fileName: string)

  function UploadStatus(r: UploadResult): int {
    if r.NoFile? then BAD_REQUEST else OK
  }

  /** The object key is `${Date.now()}-${file.name}` and the returned url is `/uploads/` followed by that key. */
  function HandleUpload(file: Option<UploadFile>, nowMs: nat): (r: UploadResult)
    ensures file.None? <==> r.NoFile?
    ensures r.Uploaded? ==> r.url == "/uploads/" + r.fileName
    ensures r.Uploaded? ==> r.fileName == Text.NatToString(nowMs) + "-" + file.value.name
    ensures r.Uploaded? ==> Text.StartsWith(r.fileName, Text.NatToString(nowMs) + "-")
    ensures r.Uploaded? ==> |file.value.name| < |r.fileName| && r.fileName[|r.fileName| - |file.value.name|..] == file.value.name
  {
    match file
    case None => NoFile
    case Some(f) =>
      var key := Text.NatToString(nowMs) + "-" + f.name;
      assert key[..|Text.NatToString(nowMs) + "-"|] == Text.NatToString(nowMs) + "-";
      Uploaded("/uploads/" + key, key)
  }

  /**
   * The upload time can be read back from the key, whatever '-' the file name holds: the
   * part before the first '-' is the decimal timestamp, and the rest is the name.
   */
  lemma {:induction false} UploadKeyTimestamp(name: string, nowMs: nat)
    ensures var r := HandleUpload(Some(UploadFile(name)), nowMs);
      var stamp := Text.Split(r.fileName, '-')[0];
      && r.fileName == stamp + "-" + name
      && stamp == Text.NatToString(nowMs)
      && (forall i :: 0 <= i < |stamp| ==> Text.IsDigit(stamp[i])) && Text.ParseDigits(stamp) == nowMs
  {
    var digits := Text.NatToString(nowMs);
    assert '-' !in digits;
    Text.SplitCons(digits, name, '-');
    assert HandleUpload(Some(UploadFile(name)), nowMs).fileName == digits + ['-'] + name;
    Text.ParseNatToString(nowMs);
  }
}
