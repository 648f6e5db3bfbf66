/**
 * The controller of the public portfolio page: the UI flags it flips (mobile menu,
 * modal, scrolled header), the skills grouped by category and the badge shown next
 * to the certifications. Page offsets are whole pixels.
 */
module PublicSite {
  import opened Wrappers
  import Grouping

  datatype Skill = Skill(name: string, category: string)

  datatype Certification = Certification(title: string, kind: string)

  datatype Project = Project(title: string, description: string)

  function Category(s: Skill): string {
    s.category
  }

  /** `certifications.find(c => c.type === 'Badge')`: the first badge, or nothing. */
  function FindBadge(certs: seq<Certification>): (r: Option<Certification>)
    ensures r.None? <==> forall i :: 0 <= i < |certs| ==> certs[i].kind != "Badge"
    ensures r.Some? ==> r.value.kind == "Badge"
    ensures r.Some? ==> exists i :: 0 <= i < |certs| && certs[i] == r.value && forall j :: 0 <= j < i ==> certs[j].kind != "Badge"
  {
    if certs == [] then None
    else if certs[0].kind == "Badge" then Some(certs[0])
    else
      var r := FindBadge(certs[1..]);
      if r.Some? then
        var i :| 0 <= i < |certs[1..]| && certs[1..][i] == r.value && forall j :: 0 <= j < i ==> certs[1..][j].kind != "Badge";
        assert certs[i + 1] == r.value;
        r
      else r
  }

  /** The `$scope` of `MainController`; `selectedProject == None` stands for the empty object `{}`. */
  class MainController {
    var mobileMenuOpen: bool
    var isScrolled: bool
    var modalVisible: bool
    var selectedProject: Option<Project>
    var skills: seq<Skill>
    var groupedSkills: map<string, seq<Skill>>
    /** The categories in the order they were inserted into `groupedSkills`. */
    var categoryOrder: seq<string>
    var certifications: seq<Certification>
    var badgeCert: Option<Certification>

    /** The initial scope: everything closed and empty. */
    constructor ()
      ensures !mobileMenuOpen && !isScrolled && !modalVisible && selectedProject.None?
      ensures skills == [] && groupedSkills == map[] && categoryOrder == [] && certifications == [] && badgeCert.None?
    {
      mobileMenuOpen := false;
      isScrolled := false;
      modalVisible := false;
      selectedProject := None;
      skills := [];
      groupedSkills := map[];
      categoryOrder := [];
      certifications := [];
      badgeCert := None;
    }

    /** `toggleMobileMenu`. */
    method ToggleMobileMenu()
      modifies this
      ensures mobileMenuOpen == !old(mobileMenuOpen)
      ensures isScrolled == old(isScrolled) && modalVisible == old(modalVisible) && selectedProject == old(selectedProject)
      ensures skills == old(skills) && groupedSkills == old(groupedSkills) && categoryOrder == old(categoryOrder)
      ensures certifications == old(certifications) && badgeCert == old(badgeCert)
    {
      mobileMenuOpen := !mobileMenuOpen;
    }

    /** `closeMobileMenu`: closed whatever the state was. */
    method CloseMobileMenu()
      modifies this
      ensures !mobileMenuOpen
      ensures isScrolled == old(isScrolled) && modalVisible == old(modalVisible) && selectedProject == old(selectedProject)
      ensures skills == old(skills) && groupedSkills == old(groupedSkills) && categoryOrder == old(categoryOrder)
      ensures certifications == old(certifications) && badgeCert == old(badgeCert)
    {
      mobileMenuOpen := false;
    }

    /** `openModal`. */
    method OpenModal(project: Project)
      modifies this
      ensures modalVisible && selectedProject == Some(project)
      ensures mobileMenuOpen == old(mobileMenuOpen) && isScrolled == old(isScrolled)
      ensures skills == old(skills) && groupedSkills == old(groupedSkills) && categoryOrder == old(categoryOrder)
      ensures certifications == old(certifications) && badgeCert == old(badgeCert)
    {
      selectedProject := Some(project);
      modalVisible := true;
    }

    /** `closeModal`: hidden, and the selection reset to `{}`. */
    method CloseModal()
      modifies this
      ensures !modalVisible && selectedProject.None?
      ensures mobileMenuOpen == old(mobileMenuOpen) && isScrolled == old(isScrolled)
      ensures skills == old(skills) && groupedSkills == old(groupedSkills) && categoryOrder == old(categoryOrder)
      ensures certifications == old(certifications) && badgeCert == old(badgeCert)
    {
      modalVisible := false;
      selectedProject := None;
    }

    /** The scroll listener: the header counts as scrolled past 50 pixels, not at 50. */
    method OnScroll(pageYOffset: int)
      modifies this
      ensures isScrolled <==> pageYOffset > 50
      ensures mobileMenuOpen == old(mobileMenuOpen) && modalVisible == old(modalVisible) && selectedProject == old(selectedProject)
      ensures skills == old(skills) && groupedSkills == old(groupedSkills) && categoryOrder == old(categoryOrder)
      ensures certifications == old(certifications) && badgeCert == old(badgeCert)
    {
      isScrolled := pageYOffset > 50;
    }

    /**
     * `groupSkills`: one list per category present, each holding that category's skills
     * in input order, the categories inserted in the order they first appear.
     */
    method GroupSkills(input: seq<Skill>)
      modifies this
      ensures groupedSkills.Keys == Grouping.Keys(input, Category)
      ensures forall k :: k in groupedSkills ==> groupedSkills[k] == Grouping.Group(input, Category, k)
      ensures categoryOrder == Grouping.KeyOrder(input, Category)
      ensures mobileMenuOpen == old(mobileMenuOpen) && isScrolled == old(isScrolled)
      ensures modalVisible == old(modalVisible) && selectedProject == old(selectedProject)
      ensures skills == old(skills) && certifications == old(certifications) && badgeCert == old(badgeCert)
    {
      groupedSkills, categoryOrder := Grouping.GroupBy(input, Category);
    }

    /** The skills and certifications parts of `init`, for data that carries them. */
    method Load(newSkills: seq<Skill>, newCerts: seq<Certification>)
      modifies this
      ensures skills == newSkills && certifications == newCerts
      ensures groupedSkills.Keys == Grouping.Keys(newSkills, Category)
      ensures forall k :: k in groupedSkills ==> groupedSkills[k] == Grouping.Group(newSkills, Category, k)
      ensures categoryOrder == Grouping.KeyOrder(newSkills, Category)
      ensures badgeCert == FindBadge(newCerts)
      ensures mobileMenuOpen == old(mobileMenuOpen) && isScrolled == old(isScrolled)
      ensures modalVisible == old(modalVisible) && selectedProject == old(selectedProject)
    {
      skills := newSkills;
      GroupSkills(newSkills);
      certifications := newCerts;
      badgeCert := FindBadge(newCerts);
    }
  }
}
