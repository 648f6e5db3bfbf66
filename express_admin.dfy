/**
 * The admin router of the Express server: every route sits behind the session login
 * check, `/about` is append-only with the newest row read back, experience and project
 * bodies are parsed from text, and the delete routes remove one row by key. List
 * columns are kept decoded, as in the Workers admin API.
 */
module ExpressAdmin {
  import opened Wrappers
  import Js
  import Store
  import ListFields

  type Rows<T> = seq<Store.Row<T>>

  const OK := 200
  const UNAUTHORIZED := 401
  const SERVER_ERROR := 500

  /** `requireLogin`: the request goes on only with a truthy `session.userId`. */
  function RequireLogin(userId: Js.Value): (denial: Option<(int, string)>)
    ensures denial.None? <==> Js.Truthy(userId)
    ensures denial.Some? ==> denial.value == (UNAUTHORIZED, "Unauthorized")
  {
    if !Js.Truthy(userId) then Some((UNAUTHORIZED, "Unauthorized")) else None
  }

  // ---------------------------------------------------------------- about

  datatype About = About(summary: Js.Value, experienceYears: Js.Value, projectsCompleted: Js.Value, companiesCount: Js.Value)

  /** `GET /about`: the newest row, or `{}` (None), behind the login check. */
  function GetAbout(userId: Js.Value, rows: Rows<About>): (r: (int, Option<Store.Row<About>>))
    ensures !Js.Truthy(userId) ==> r == (UNAUTHORIZED, None)
    ensures Js.Truthy(userId) ==> r.0 == OK && (r.1.None? <==> rows == [])
    ensures Js.Truthy(userId) && r.1.Some? ==> r.1.value in rows && forall i :: 0 <= i < |rows| ==> rows[i].id <= r.1.value.id
  {
    if RequireLogin(userId).Some? then (UNAUTHORIZED, None) else (OK, Store.Latest(rows))
  }

  /** `POST /about`: always a new row, never an update. */
  method PostAbout(userId: Js.Value, t: Store.Table<About>, body: About) returns (status: int)
    requires t.Valid()
    modifies t
    ensures t.Valid()
    ensures !Js.Truthy(userId) ==> status == UNAUTHORIZED && t.rows == old(t.rows)
    ensures Js.Truthy(userId) ==> status == OK && t.rows == old(t.rows) + [Store.Row(old(t.nextId), body)]
  {
    if RequireLogin(userId).Some? {
      return UNAUTHORIZED;
    }
    var _ := t.Insert(body);
    status := OK;
  }

  /** The latest POST wins: appending a row with a larger key makes it what GET returns. */
  lemma {:induction false} LatestPostWins(rows: Rows<About>, id: nat, body: About)
    requires Store.IdsIncreasing(rows)
    requires forall i :: 0 <= i < |rows| ==> rows[i].id < id
    ensures GetAbout(Js.Bool(true), rows + [Store.Row(id, body)]) == (OK, Some(Store.Row(id, body)))
  {
    var after := rows + [Store.Row(id, body)];
    assert Store.IdsIncreasing(after);
    Store.LatestIsLast(after);
  }

  // ---------------------------------------------------------------- experience

  /** A stored experience row; `responsibilities` is the JSON text column, possibly NULL. */
  datatype Experience = Experience(title: Js.Value, company: Js.Value, period: Js.Value, responsibilities: Option<string>)

  datatype ExperienceBody = ExperienceBody(title: Js.Value, company: Js.Value, period: Js.Value, responsibilities: Js.Value)

  /** `responsibilities.split('\n').filter(...)`: only a string can be split; anything else throws and Express answers 500. */
  function Responsibilities(v: Js.Value): (r: Result<seq<string>, string>)
    ensures r.Ok? <==> v.Str?
    ensures r.Ok? ==> r.value == ListFields.ParseLines(v.s)
  {
    if v.Str? then Ok(ListFields.ParseLines(v.s)) else Err("responsibilities.split is not a function")
  }

  /** `POST /experience/add`: the kept lines are stored as JSON text (`stringify` stands for `JSON.stringify`). */
  method AddExperience(userId: Js.Value, t: Store.Table<Experience>, body: ExperienceBody, stringify: seq<string> -> string)
    returns (status: int)
    requires t.Valid()
    modifies t
    ensures t.Valid()
    ensures !Js.Truthy(userId) ==> status == UNAUTHORIZED && t.rows == old(t.rows)
    ensures Js.Truthy(userId) && !body.responsibilities.Str? ==> status == SERVER_ERROR && t.rows == old(t.rows)
    ensures Js.Truthy(userId) && body.responsibilities.Str? ==>
      && status == OK
      && t.rows == old(t.rows) + [Store.Row(old(t.nextId), StoredExperience(body, ListFields.ParseLines(body.responsibilities.s), stringify))]
  {
    if RequireLogin(userId).Some? {
      return UNAUTHORIZED;
    }
    var resp := Responsibilities(body.responsibilities);
    if resp.Err? {
      return SERVER_ERROR;
    }
    var _ := t.Insert(StoredExperience(body, resp.value, stringify));
    status := OK;
  }

  /** The row `POST /experience/add` writes for a body whose lines parsed to `lines`. */
  function StoredExperience(body: ExperienceBody, lines: seq<string>, stringify: seq<string> -> string): (e: Experience)
    ensures e.responsibilities == Some(stringify(lines))
    ensures (e.title, e.company, e.period) == (body.title, body.company, body.period)
  {
    Experience(body.title, body.company, body.period, Some(stringify(lines)))
  }

  /**
   * `ORDER BY id DESC`: the rows in reverse storage order. The two agree because a
   * table's ids increase with every insert (`Store.IdsIncreasing`, kept by every table
   * operation); `NewestFirstDescending` proves the ids then strictly decrease.
   */
  function NewestFirst<T>(rows: Rows<T>): (r: Rows<T>)
    ensures |r| == |rows|
    ensures forall i :: 0 <= i < |rows| ==> r[i] == rows[|rows| - 1 - i]
  {
    if rows == [] then [] else NewestFirst(rows[1..]) + [rows[0]]
  }

  /** The stored list column of each row. */
  function Columns<T>(rows: Rows<T>, column: T -> Option<string>): (cols: seq<Option<string>>)
    ensures |cols| == |rows| && forall i :: 0 <= i < |rows| ==> cols[i] == column(rows[i].data)
  {
    seq(|rows|, i requires 0 <= i < |rows| => column(rows[i].data))
  }

  /**
   * The callback of a `SELECT * ... ORDER BY id DESC` whose rows carry a JSON list column:
   * the rows newest first, each with `JSON.parse(column || '[]')`; 500 when any fails.
   */
  function NewestDecoded<T>(rows: Rows<T>, column: T -> Option<string>, parse: string -> Option<seq<string>>)
    : (r: Result<seq<(Store.Row<T>, seq<string>)>, int>)
    ensures r.Ok? <==> forall i :: 0 <= i < |rows| ==> ListFields.DecodeListColumn(column(rows[i].data), parse).Ok?
    ensures r.Err? ==> r.error == SERVER_ERROR
    ensures r.Ok? ==> |r.value| == |rows| && forall i :: 0 <= i < |rows| ==>
      r.value[i] == (rows[|rows| - 1 - i], ListFields.DecodeListColumn(column(rows[|rows| - 1 - i].data), parse).value)
    ensures r.Ok? && Store.IdsIncreasing(rows) ==> Descending(r.value)
  {
    var newest := NewestFirst(rows);
    var d := ListFields.DecodeListColumns(Columns(newest, column), parse);
    if d.Err? then
      assert exists i :: 0 <= i < |newest| && !ListFields.DecodeListColumn(column(newest[i].data), parse).Ok?;
      Err(SERVER_ERROR)
    else
      forall i | 0 <= i < |rows| ensures ListFields.DecodeListColumn(column(rows[i].data), parse).Ok? {
        assert rows[i] == newest[|rows| - 1 - i];
      }
      Ok(seq(|newest|, i requires 0 <= i < |newest| => (newest[i], d.value[i])))
  }

  /** The listed rows' ids strictly decrease: newest first. */
  predicate Descending<T>(listed: seq<(Store.Row<T>, seq<string>)>) {
    forall i, j :: 0 <= i < j < |listed| ==> listed[i].0.id > listed[j].0.id
  }

  function ResponsibilitiesColumn(e: Experience): Option<string> {
    e.responsibilities
  }

  /** `GET /experience`: the rows newest first, each paired with its decoded responsibilities. */
  function GetExperience(userId: Js.Value, rows: Rows<Experience>, parse: string -> Option<seq<string>>)
    : (r: Result<seq<(Store.Row<Experience>, seq<string>)>, int>)
    ensures !Js.Truthy(userId) ==> r == Err(UNAUTHORIZED)
    ensures Js.Truthy(userId) ==>
      (r.Ok? <==> forall i :: 0 <= i < |rows| ==> ListFields.DecodeListColumn(rows[i].data.responsibilities, parse).Ok?)
    ensures r.Err? && Js.Truthy(userId) ==> r.error == SERVER_ERROR
    ensures Js.Truthy(userId) && r.Ok? ==> |r.value| == |rows| && forall i :: 0 <= i < |rows| ==>
      r.value[i] == (rows[|rows| - 1 - i], ListFields.DecodeListColumn(rows[|rows| - 1 - i].data.responsibilities, parse).value)
    ensures r.Ok? && Store.IdsIncreasing(rows) ==> Descending(r.value)
  {
    if RequireLogin(userId).Some? then Err(UNAUTHORIZED)
    else NewestDecoded(rows, ResponsibilitiesColumn, parse)
  }

  /**
   * What POST stores, GET reads back: when `parse` undoes `stringify` on the kept lines,
   * the newest entry of the list carries exactly those lines.
   */
  lemma {:induction false} ExperienceRoundTrip(rows: Rows<Experience>, id: nat, body: ExperienceBody,
                                               stringify: seq<string> -> string, parse: string -> Option<seq<string>>)
    requires body.responsibilities.Str?
    requires var lines := ListFields.ParseLines(body.responsibilities.s); parse(stringify(lines)) == Some(lines) && stringify(lines) != ""
    requires forall i :: 0 <= i < |rows| ==> ListFields.DecodeListColumn(rows[i].data.responsibilities, parse).Ok?
    ensures var lines := ListFields.ParseLines(body.responsibilities.s);
      var row := Store.Row(id, StoredExperience(body, lines, stringify));
      var r := GetExperience(Js.Bool(true), rows + [row], parse);
      r.Ok? && r.value[0] == (row, lines)
  {
    var lines := ListFields.ParseLines(body.responsibilities.s);
    var row := Store.Row(id, StoredExperience(body, lines, stringify));
    var after := rows + [row];
    ListFields.DecodeListColumnRoundTrip(lines, stringify, parse);
    forall i | 0 <= i < |after| ensures ListFields.DecodeListColumn(after[i].data.responsibilities, parse).Ok? {
      if i < |rows| {
        assert after[i] == rows[i];
      }
    }
  }

  /** Under increasing keys, reversing storage order lists keys from largest to smallest. */
  lemma NewestFirstDescending<T>(rows: Rows<T>)
    requires Store.IdsIncreasing(rows)
    ensures forall i, j :: 0 <= i < j < |rows| ==> NewestFirst(rows)[i].id > NewestFirst(rows)[j].id
  {
    var r := NewestFirst(rows);
    forall i, j | 0 <= i < j < |rows| ensures r[i].id > r[j].id {
      assert r[i] == rows[|rows| - 1 - i] && r[j] == rows[|rows| - 1 - j];
    }
  }

  // ---------------------------------------------------------------- skills and projects

  datatype Skill = Skill(category: Js.Value, name: Js.Value, level: Js.Value)

  /** `POST /skills/add`: the body's three fields as a new row. */
  method AddSkill(userId: Js.Value, t: Store.Table<Skill>, body: Skill) returns (status: int)
    requires t.Valid()
    modifies t
    ensures t.Valid()
    ensures !Js.Truthy(userId) ==> status == UNAUTHORIZED && t.rows == old(t.rows)
    ensures Js.Truthy(userId) ==> status == OK && t.rows == old(t.rows) + [Store.Row(old(t.nextId), body)]
  {
    if RequireLogin(userId).Some? {
      return UNAUTHORIZED;
    }
    var _ := t.Insert(body);
    status := OK;
  }

  datatype Project = Project(title: Js.Value, description: Js.Value, imageUrl: Js.Value, tags: Option<string>)

  datatype ProjectBody = ProjectBody(title: Js.Value, description: Js.Value, imageUrl: Js.Value, tags: Js.Value)

  /** `tags.split(',').map(trim).filter(...)`: only a string can be split. */
  function Tags(v: Js.Value): (r: Result<seq<string>, string>)
    ensures r.Ok? <==> v.Str?
    ensures r.Ok? ==> r.value == ListFields.ParseTags(v.s)
  {
    if v.Str? then Ok(ListFields.ParseTags(v.s)) else Err("tags.split is not a function")
  }

  /** The row `POST /projects/add` writes for a body whose tags parsed to `tags`. */
  function StoredProject(body: ProjectBody, tags: seq<string>, stringify: seq<string> -> string): (p: Project)
    ensures p.tags == Some(stringify(tags))
    ensures (p.title, p.description, p.imageUrl) == (body.title, body.description, body.imageUrl)
  {
    Project(body.title, body.description, body.imageUrl, Some(stringify(tags)))
  }

  /** `POST /projects/add`: the kept tags are stored as JSON text. */
  method AddProject(userId: Js.Value, t: Store.Table<Project>, body: ProjectBody, stringify: seq<string> -> string)
    returns (status: int)
    requires t.Valid()
    modifies t
    ensures t.Valid()
    ensures !Js.Truthy(userId) ==> status == UNAUTHORIZED && t.rows == old(t.rows)
    ensures Js.Truthy(userId) && !body.tags.Str? ==> status == SERVER_ERROR && t.rows == old(t.rows)
    ensures Js.Truthy(userId) && body.tags.Str? ==>
      && status == OK
      && t.rows == old(t.rows) + [Store.Row(old(t.nextId), StoredProject(body, ListFields.ParseTags(body.tags.s), stringify))]
  {
    if RequireLogin(userId).Some? {
      return UNAUTHORIZED;
    }
    var tags := Tags(body.tags);
    if tags.Err? {
      return SERVER_ERROR;
    }
    var _ := t.Insert(StoredProject(body, tags.value, stringify));
    status := OK;
  }

  function TagsColumn(p: Project): Option<string> {
    p.tags
  }

  /** `GET /projects`: the rows newest first, each paired with its decoded tags. */
  function GetProjects(userId: Js.Value, rows: Rows<Project>, parse: string -> Option<seq<string>>)
    : (r: Result<seq<(Store.Row<Project>, seq<string>)>, int>)
    ensures !Js.Truthy(userId) ==> r == Err(UNAUTHORIZED)
    ensures Js.Truthy(userId) ==>
      (r.Ok? <==> forall i :: 0 <= i < |rows| ==> ListFields.DecodeListColumn(rows[i].data.tags, parse).Ok?)
    ensures r.Err? && Js.Truthy(userId) ==> r.error == SERVER_ERROR
    ensures Js.Truthy(userId) && r.Ok? ==> |r.value| == |rows| && forall i :: 0 <= i < |rows| ==>
      r.value[i] == (rows[|rows| - 1 - i], ListFields.DecodeListColumn(rows[|rows| - 1 - i].data.tags, parse).value)
    ensures r.Ok? && Store.IdsIncreasing(rows) ==> Descending(r.value)
  {
    if RequireLogin(userId).Some? then Err(UNAUTHORIZED)
    else NewestDecoded(rows, TagsColumn, parse)
  }

  /** What `POST /projects/add` stores, `GET /projects` lists first with the kept tags. */
  lemma {:induction false} ProjectRoundTrip(rows: Rows<Project>, id: nat, body: ProjectBody,
                                            stringify: seq<string> -> string, parse: string -> Option<seq<string>>)
    requires body.tags.Str?
    requires var tags := ListFields.ParseTags(body.tags.s); parse(stringify(tags)) == Some(tags) && stringify(tags) != ""
    requires forall i :: 0 <= i < |rows| ==> ListFields.DecodeListColumn(rows[i].data.tags, parse).Ok?
    ensures var tags := ListFields.ParseTags(body.tags.s);
      var row := Store.Row(id, StoredProject(body, tags, stringify));
      var r := GetProjects(Js.Bool(true), rows + [row], parse);
      r.Ok? && r.value[0] == (row, tags)
  {
    var tags := ListFields.ParseTags(body.tags.s);
    var row := Store.Row(id, StoredProject(body, tags, stringify));
    var after := rows + [row];
    ListFields.DecodeListColumnRoundTrip(tags, stringify, parse);
    forall i | 0 <= i < |after| ensures ListFields.DecodeListColumn(after[i].data.tags, parse).Ok? {
      if i < |rows| {
        assert after[i] == rows[i];
      }
    }
  }

  // ---------------------------------------------------------------- deletes

  /** `POST /<table>/delete/:id`: success whether or not the key existed; only that key's row goes. */
  method DeleteRow<T>(userId: Js.Value, t: Store.Table<T>, id: nat) returns (status: int)
    requires t.Valid()
    modifies t
    ensures t.Valid()
    ensures !Js.Truthy(userId) ==> status == UNAUTHORIZED && t.rows == old(t.rows)
    ensures Js.Truthy(userId) ==> status == OK && t.rows == Store.DeleteById(old(t.rows), id)
  {
    if RequireLogin(userId).Some? {
      return UNAUTHORIZED;
    }
    t.Delete(id);
    status := OK;
  }
}
