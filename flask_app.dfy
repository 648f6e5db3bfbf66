/**
 * The Flask version of the site: the tables it seeds on start-up, the admin session
 * gate and login condition, the first-row profile upsert, and the category grouping
 * of the home page. Password hashing is a parameter; forms arrive complete, with
 * their numbers already converted (the 400 for a missing key and the failing
 * `float`/`int` conversions are not modelled).
 */
module FlaskApp {
  import opened Wrappers
  import Grouping

  datatype User = User(id: nat, username: string, passwordHash: string, isAdmin: bool)

  /** A profile row; the nullable text columns are options (None for NULL). */
  datatype Profile = Profile(
    name: string, title: string, description: string, email: string, phone: Option<string>,
    location: Option<string>, githubUrl: Option<string>, linkedinUrl: Option<string>, orcidUrl: Option<string>,
    yearsExperience: real, projectsCompleted: int, companiesWorked: int,
    profileImage: Option<string>, resumeUrl: Option<string>)

  datatype Experience = Experience(jobTitle: string, company: string, location: string, orderIndex: int)

  datatype Skill = Skill(name: string, category: string, proficiency: int, orderIndex: int)

  datatype Project = Project(title: string, isFeatured: bool, orderIndex: int)

  datatype Db = Db(users: seq<User>, profiles: seq<Profile>, experiences: seq<Experience>,
                   skills: seq<Skill>, projects: seq<Project>)

  // ---------------------------------------------------------------- seeding

  const DEFAULT_PROFILE := Profile(
    "Balaji B", "Associate Engineer",
    "Specialized in hardware design, PCB development, and antenna systems with 1.9+ years of experience delivering innovative electronic solutions for aerospace and advanced composites industries.",
    "balaji3006@outlook.in", None, Some("Bengaluru, India"),
    Some("https://github.com/balajib3006"), Some("https://linkedin.com/in/balajib300602"),
    Some("https://orcid.org/0009-0001-5586-0951"),
    1.9, 50, 2, Some("profile-photo.jpg"), None)

  const DEFAULT_EXPERIENCES := [
    Experience("Associate Engineer", "Rangsons Aerospace PVT LTD", "Bengaluru", 1),
    Experience("Design Engineer Trainee (Antenna)", "ST Advanced Composites PVT LTD", "Chennai", 2)]

  const DEFAULT_SKILLS := [
    Skill("Schematic Capture", "Hardware Design", 90, 1),
    Skill("PCB Layout", "Hardware Design", 85, 2),
    Skill("Antenna Design", "Hardware Design", 80, 3),
    Skill("MIL-STD-1553B", "Protocols", 85, 4),
    Skill("UART", "Protocols", 90, 5),
    Skill("SPI", "Protocols", 85, 6),
    Skill("I2C", "Protocols", 80, 7),
    Skill("Altium Designer", "Tools & Software", 90, 8),
    Skill("Ansys HFSS", "Tools & Software", 75, 9),
    Skill("LTSpice", "Tools & Software", 80, 10),
    Skill("Oscilloscope", "Tools & Software", 85, 11),
    Skill("Environmental Stress Screening (ESS)", "Testing & Validation", 85, 12),
    Skill("DFM/DFA/DFT Standards", "Testing & Validation", 80, 13)]

  const DEFAULT_PROJECTS := [
    Project("Multilayer PCB Design", true, 1),
    Project("RF Antenna System", true, 2),
    Project("Circuit Analysis & Simulation", true, 3)]

  predicate HasUser(users: seq<User>, username: string) {
    exists i :: 0 <= i < |users| && users[i].username == username
  }

  /** The id a new user row gets: one past the largest. */
  function NextUserId(users: seq<User>): (id: nat)
    ensures forall i :: 0 <= i < |users| ==> users[i].id < id
  {
    if users == [] then 1
    else
      var rest := NextUserId(users[1..]);
      assert forall i :: 1 <= i < |users| ==> users[i] == users[1..][i - 1];
      if users[0].id < rest then rest else users[0].id + 1
  }

  /** What `init_db` leaves behind: each default is added only where its guard finds nothing. */
  function Seed(db: Db, hash: string -> string): Db {
    Db(
      if HasUser(db.users, "admin") then db.users
      else db.users + [User(NextUserId(db.users), "admin", hash("admin123"), true)],
      if db.profiles == [] then [DEFAULT_PROFILE] else db.profiles,
      if db.experiences == [] then DEFAULT_EXPERIENCES else db.experiences,
      if db.skills == [] then DEFAULT_SKILLS else db.skills,
      if db.projects == [] then DEFAULT_PROJECTS else db.projects)
  }

  /** After seeding an admin user exists and no seeded table is empty; tables that had rows are untouched and no user is lost. */
  lemma SeedFills(db: Db, hash: string -> string)
    ensures var s := Seed(db, hash);
      && HasUser(s.users, "admin")
      && s.profiles != [] && s.experiences != [] && s.skills != [] && s.projects != []
      && db.users <= s.users && |s.users| <= |db.users| + 1
      && (db.profiles != [] ==> s.profiles == db.profiles)
      && (db.experiences != [] ==> s.experiences == db.experiences)
      && (db.skills != [] ==> s.skills == db.skills)
      && (db.projects != [] ==> s.projects == db.projects)
  {
    var s := Seed(db, hash);
    if !HasUser(db.users, "admin") {
      assert s.users[|db.users|].username == "admin";
    }
  }

  /** Running the start-up seeding again adds nothing. */
  lemma SeedIdempotent(db: Db, hash: string -> string)
    ensures Seed(Seed(db, hash), hash) == Seed(db, hash)
  {
    SeedFills(db, hash);
  }

  // ---------------------------------------------------------------- session and login

  /** The Flask session cookie: `user_id` and `is_admin`, both absent until login. */
  datatype Session = Session(userId: Option<nat>, isAdmin: bool)

  /** The guard at the top of every admin route: the login page to redirect to, or nothing to go on. */
  function AdminGate(session: Session): (redirect: Option<string>)
    ensures redirect.Some? <==> !session.isAdmin
    ensures redirect.Some? ==> redirect.value == "admin_login"
  {
    if !session.isAdmin then Some("admin_login") else None
  }

  /** `User.query.filter_by(username=...).first()`. */
  function FindUser(users: seq<User>, username: string): (r: Option<User>)
    ensures r.None? <==> !HasUser(users, username)
    ensures r.Some? ==> r.value.username == username
    ensures r.Some? ==> exists i :: 0 <= i < |users| && users[i] == r.value && forall j :: 0 <= j < i ==> users[j].username != username
  {
    if users == [] then None
    else if users[0].username == username then Some(users[0])
    else
      var r := FindUser(users[1..], username);
      assert HasUser(users[1..], username) <==> HasUser(users, username) by {
        if HasUser(users, username) {
          var i :| 0 <= i < |users| && users[i].username == username;
          assert users[1..][i - 1] == users[i];
        }
      }
      if r.Some? then
        var i :| 0 <= i < |users[1..]| && users[1..][i] == r.value && forall j :: 0 <= j < i ==> users[1..][j].username != username;
        assert users[i + 1] == r.value;
        r
      else r
  }

  datatype LoginOutcome = LoginOutcome(session: Session, ok: bool)

  /**
   * `admin_login` on POST: the session opens only for an existing user whose hash
   * matches and who is an admin; otherwise the session is left as it was.
   */
  function AdminLogin(session: Session, username: string, password: string, users: seq<User>,
                      checkHash: (string, string) -> bool): (r: LoginOutcome)
    ensures r.ok <==>
      && FindUser(users, username).Some?
      && checkHash(FindUser(users, username).value.passwordHash, password)
      && FindUser(users, username).value.isAdmin
    ensures r.ok ==> r.session == Session(Some(FindUser(users, username).value.id), true)
    ensures !r.ok ==> r.session == session
  {
    var user := FindUser(users, username);
    if user.Some? && checkHash(user.value.passwordHash, password) && user.value.isAdmin then
      LoginOutcome(Session(Some(user.value.id), true), true)
    else LoginOutcome(session, false)
  }

  /** `admin_logout`: `session.clear()`. */
  function Logout(session: Session): (r: Session)
    ensures AdminGate(r).Some?
  {
    Session(None, false)
  }

  /** Logging in opens the admin pages; a user without the admin flag never gets past the gate by logging in. */
  lemma LoginOpensGate(session: Session, username: string, password: string, users: seq<User>,
                       checkHash: (string, string) -> bool)
    ensures AdminLogin(session, username, password, users, checkHash).ok ==>
      AdminGate(AdminLogin(session, username, password, users, checkHash).session).None?
    ensures !session.isAdmin && (forall i :: 0 <= i < |users| ==> !users[i].isAdmin) ==>
      AdminGate(AdminLogin(session, username, password, users, checkHash).session).Some?
  {
    var user := FindUser(users, username);
    if user.Some? {
      var i :| 0 <= i < |users| && users[i] == user.value;
    }
  }

  // ---------------------------------------------------------------- profile

  datatype ProfileForm = ProfileForm(
    name: string, title: string, description: string, email: string, phone: string,
    location: string, githubUrl: string, linkedinUrl: string, orcidUrl: string,
    yearsExperience: real, projectsCompleted: int, companiesWorked: int)

  /** The columns a POST assigns; image and resume are not on the form and keep their value. */
  function ApplyForm(p: Profile, form: ProfileForm): Profile {
    p.(name := form.name, title := form.title, description := form.description, email := form.email,
       phone := Some(form.phone), location := Some(form.location), githubUrl := Some(form.githubUrl),
       linkedinUrl := Some(form.linkedinUrl), orcidUrl := Some(form.orcidUrl), yearsExperience := form.yearsExperience,
       projectsCompleted := form.projectsCompleted, companiesWorked := form.companiesWorked)
  }

  /** Every column the form sets holds the submitted value. */
  predicate HoldsForm(p: Profile, form: ProfileForm) {
    && p.name == form.name && p.title == form.title && p.description == form.description && p.email == form.email
    && p.phone == Some(form.phone) && p.location == Some(form.location) && p.githubUrl == Some(form.githubUrl)
    && p.linkedinUrl == Some(form.linkedinUrl) && p.orcidUrl == Some(form.orcidUrl)
    && p.yearsExperience == form.yearsExperience && p.projectsCompleted == form.projectsCompleted
    && p.companiesWorked == form.companiesWorked
  }

  /** A `Profile()` with nothing set; the four required text columns are all assigned before the commit. */
  const BLANK_PROFILE := Profile("", "", "", "", None, None, None, None, None, 0.0, 0, 0, None, None)

  /** The profile table after `admin_profile` POSTs `form`: the first row is updated, or one is created. */
  function UpsertProfile(profiles: seq<Profile>, form: ProfileForm): seq<Profile> {
    if profiles == [] then [ApplyForm(BLANK_PROFILE, form)]
    else [ApplyForm(profiles[0], form)] + profiles[1..]
  }

  /**
   * Every form column lands in the first row; its image and resume survive (a created
   * row has none); every other row is kept as it was; at most one row is added.
   */
  lemma UpsertProfileSpec(profiles: seq<Profile>, form: ProfileForm)
    ensures var r := UpsertProfile(profiles, form);
      && |r| == (if profiles == [] then 1 else |profiles|)
      && HoldsForm(r[0], form)
      && (profiles != [] ==> r[0].profileImage == profiles[0].profileImage && r[0].resumeUrl == profiles[0].resumeUrl)
      && (profiles == [] ==> r[0].profileImage == None && r[0].resumeUrl == None)
      && (forall i :: 1 <= i < |r| ==> r[i] == profiles[i])
  {
  }

  /** Two POSTs in a row: the second wins on every form column, and the table does not grow twice. */
  lemma UpsertProfileTwice(profiles: seq<Profile>, f1: ProfileForm, f2: ProfileForm)
    ensures UpsertProfile(UpsertProfile(profiles, f1), f2) == UpsertProfile(profiles, f2)
  {
    if profiles == [] {
    } else {
      assert ([ApplyForm(profiles[0], f1)] + profiles[1..])[1..] == profiles[1..];
    }
  }

  datatype Outcome = RedirectLogin | RedirectProfile

  /** The application's database, changed by the routes. */
  class Site {
    var db: Db

    constructor (initial: Db)
      ensures db == initial
    {
      db := initial;
    }

    /** `init_db`: each guard looks at its table, then adds the defaults if it is empty. */
    method InitDb(hash: string -> string)
      modifies this
      ensures db == Seed(old(db), hash)
    {
      if !HasUser(db.users, "admin") {
        db := db.(users := db.users + [User(NextUserId(db.users), "admin", hash("admin123"), true)]);
      }
      if db.profiles == [] {
        db := db.(profiles := [DEFAULT_PROFILE]);
      }
      if db.experiences == [] {
        db := db.(experiences := DEFAULT_EXPERIENCES);
      }
      if db.skills == [] {
        db := db.(skills := DEFAULT_SKILLS);
      }
      if db.projects == [] {
        db := db.(projects := DEFAULT_PROJECTS);
      }
    }

    /** `admin_profile` on POST: redirected away without the admin flag, else the first-row upsert. */
    method AdminProfile(session: Session, form: ProfileForm) returns (outcome: Outcome)
      modifies this
      ensures AdminGate(session).Some? ==> outcome == RedirectLogin && db == old(db)
      ensures AdminGate(session).None? ==>
        outcome == RedirectProfile && db == old(db).(profiles := UpsertProfile(old(db).profiles, form))
    {
      if AdminGate(session).Some? {
        return RedirectLogin;
      }
      var profile: Profile;
      if db.profiles == [] {
        profile := BLANK_PROFILE;
        db := db.(profiles := [profile]);
      } else {
        profile := db.profiles[0];
      }
      profile := ApplyForm(profile, form);
      db := db.(profiles := [profile] + db.profiles[1..]);
      outcome := RedirectProfile;
    }
  }

  // ---------------------------------------------------------------- home page

  function SkillCategory(s: Skill): string {
    s.category
  }

  function SkillOrder(s: Skill): int {
    s.orderIndex
  }

  /**
   * The `skills_by_category` loop of `index`, over the skills as the query returns them:
   * each category present gets the list of its skills, lists ordered by
   * `order_index` stay so, and the dictionary lists the categories in the order
   * they first appear.
   */
  method SkillsByCategory(skills: seq<Skill>) returns (byCategory: map<string, seq<Skill>>, categories: seq<string>)
    ensures byCategory.Keys == Grouping.Keys(skills, SkillCategory)
    ensures forall k :: k in byCategory ==> byCategory[k] == Grouping.Group(skills, SkillCategory, k)
    ensures Grouping.SortedBy(skills, SkillOrder) ==>
      forall k :: k in byCategory ==> Grouping.SortedBy(byCategory[k], SkillOrder)
    ensures categories == Grouping.KeyOrder(skills, SkillCategory)
  {
    byCategory, categories := Grouping.GroupBy(skills, SkillCategory);
    if Grouping.SortedBy(skills, SkillOrder) {
      forall k | k in byCategory ensures Grouping.SortedBy(byCategory[k], SkillOrder) {
        Grouping.GroupKeepsSorted(skills, SkillCategory, k, SkillOrder);
      }
    }
  }
}
