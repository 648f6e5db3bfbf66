/**
 * The Flask site's browser script: the numeric helpers and breakpoints of `Utils`, the
 * mobile menu, the scroll handler of the navigation bar with its active-section
 * tracking, the light/dark theme switch and the contact form's validation gate.
 * Window widths and scroll offsets are whole pixels; the DOM is reduced to the flags
 * the script sets.
 */
module SiteScript {
  import opened Wrappers
  import Text
  import EmailPattern

  // ---------------------------------------------------------------- Utils

  /** `Math.min(Math.max(value, min), max)`. */
  function Clamp(value: real, lo: real, hi: real): (r: real)
    ensures r <= hi
    ensures lo <= hi ==> lo <= r
    ensures lo <= value <= hi ==> r == value
    ensures r == value || r == lo || r == hi
  {
    var atLeast := if value > lo then value else lo;
    if atLeast < hi then atLeast else hi
  }

  predicate IsMobile(width: int) {
    width <= 768
  }

  predicate IsTablet(width: int) {
    width > 768 && width <= 1024
  }

  predicate IsDesktop(width: int) {
    width > 1024
  }

  /** Every width falls in exactly one of the three breakpoints. */
  lemma BreakpointsPartition(width: int)
    ensures IsMobile(width) || IsTablet(width) || IsDesktop(width)
    ensures !(IsMobile(width) && IsTablet(width)) && !(IsMobile(width) && IsDesktop(width)) && !(IsTablet(width) && IsDesktop(width))
  {
  }

  // ---------------------------------------------------------------- mobile menu

  /** `MobileNavigationManager`: whether the menu is open and whether body scrolling is locked for it. */
  class MobileNavigation {
    var isOpen: bool
    var bodyLocked: bool

    /** The page can scroll exactly when the menu is closed. */
    ghost predicate Valid()
      reads this
    {
      bodyLocked == isOpen
    }

    constructor ()
      ensures Valid() && !isOpen
    {
      isOpen := false;
      bodyLocked := false;
    }

    method OpenMenu()
      modifies this
      ensures Valid() && isOpen
    {
      isOpen := true;
      bodyLocked := true;
    }

    method CloseMenu()
      modifies this
      ensures Valid() && !isOpen
    {
      isOpen := false;
      bodyLocked := false;
    }

    method ToggleMenu()
      modifies this
      ensures Valid() && isOpen == !old(isOpen)
    {
      if isOpen {
        CloseMenu();
      } else {
        OpenMenu();
      }
    }
  }

  // ---------------------------------------------------------------- scrolling

  /** A `section[id]` with its offset and height. */
  datatype Section = Section(id: string, top: int, height: int)

  predicate Covers(s: Section, pos: int) {
    s.top <= pos < s.top + s.height
  }

  /** The position tested against the sections: 100 pixels below the top on mobile, 150 otherwise. */
  function ScrollPos(scrollY: int, width: int): int {
    scrollY + if IsMobile(width) then 100 else 150
  }

  /** No section after the `i`th covers `pos`. */
  predicate LastToCover(sections: seq<Section>, pos: int, i: nat) {
    forall j :: i < j < |sections| ==> !Covers(sections[j], pos)
  }

  /** The id of the last section covering `pos`: each covering section in turn takes the highlight. */
  function LastCovering(sections: seq<Section>, pos: int): (r: Option<string>)
    ensures r.None? <==> forall i :: 0 <= i < |sections| ==> !Covers(sections[i], pos)
    ensures r.Some? ==> exists i :: 0 <= i < |sections| && Covers(sections[i], pos) && sections[i].id == r.value && LastToCover(sections, pos, i)
  {
    if sections == [] then None
    else
      var last := sections[|sections| - 1];
      if Covers(last, pos) then Some(last.id)
      else
        var r := LastCovering(sections[..|sections| - 1], pos);
        assert forall i :: 0 <= i < |sections| - 1 ==> sections[..|sections| - 1][i] == sections[i];
        r
  }

  /** Scanning one more section: it takes the highlight if it covers the position. */
  lemma LastCoveringStep(sections: seq<Section>, pos: int, i: nat)
    requires i < |sections|
    ensures LastCovering(sections[..i + 1], pos) == if Covers(sections[i], pos) then Some(sections[i].id) else LastCovering(sections[..i], pos)
  {
    assert sections[..i + 1][..i] == sections[..i];
  }

  /** Among sections that do not overlap, the highlighted one is the one covering the position. */
  lemma DisjointSectionsPickCover(sections: seq<Section>, pos: int, k: nat)
    requires k < |sections| && Covers(sections[k], pos)
    requires forall i, j :: 0 <= i < j < |sections| ==> sections[i].top + sections[i].height <= sections[j].top
    ensures LastCovering(sections, pos) == Some(sections[k].id)
  {
    var r := LastCovering(sections, pos);
    var i :| 0 <= i < |sections| && Covers(sections[i], pos) && sections[i].id == r.value && LastToCover(sections, pos, i);
  }

  /** `NavigationManager`: the flags `handleScroll` sets on the navbar and the scroll indicator. */
  class Navigation {
    var scrolled: bool
    var hidden: bool
    var indicatorHidden: bool
    var lastScrollY: int
    var active: Option<string>

    /**
     * The constructor and `init`: the last position starts at 0 and `handleScroll` runs
     * once for the position the page loads at, so the header, the indicator and the
     * active link are right before the first scroll event.
     */
    constructor (scrollY: int, width: int, sections: seq<Section>)
      ensures scrolled <==> scrollY > 100
      ensures !IsMobile(width) ==> (hidden <==> scrollY > 200)
      ensures IsMobile(width) ==> !hidden
      ensures indicatorHidden <==> scrollY > 300
      ensures lastScrollY == scrollY
      ensures active == LastCovering(sections, ScrollPos(scrollY, width))
    {
      scrolled := false;
      hidden := false;
      indicatorHidden := false;
      lastScrollY := 0;
      active := None;
      new;
      HandleScroll(scrollY, width, sections);
    }

    /** `updateActiveNavigation`: each section covering the position clears the others and marks its own link. */
    method UpdateActiveNavigation(scrollY: int, width: int, sections: seq<Section>)
      modifies this
      ensures active == if LastCovering(sections, ScrollPos(scrollY, width)).Some? then LastCovering(sections, ScrollPos(scrollY, width)) else old(active)
      ensures scrolled == old(scrolled) && hidden == old(hidden) && indicatorHidden == old(indicatorHidden) && lastScrollY == old(lastScrollY)
    {
      var pos := ScrollPos(scrollY, width);
      var i := 0;
      while i < |sections|
        invariant 0 <= i <= |sections|
        invariant active == if LastCovering(sections[..i], pos).Some? then LastCovering(sections[..i], pos) else old(active)
        invariant scrolled == old(scrolled) && hidden == old(hidden) && indicatorHidden == old(indicatorHidden) && lastScrollY == old(lastScrollY)
      {
        LastCoveringStep(sections, pos, i);
        if pos >= sections[i].top && pos < sections[i].top + sections[i].height {
          active := Some(sections[i].id);
        }
        i := i + 1;
      }
      assert sections[..i] == sections;
    }

    /** `handleScroll`: header and indicator thresholds, hiding on wider screens while scrolling down past 200. */
    method HandleScroll(scrollY: int, width: int, sections: seq<Section>)
      modifies this
      ensures scrolled <==> scrollY > 100
      ensures !IsMobile(width) ==> (hidden <==> scrollY > old(lastScrollY) && scrollY > 200)
      ensures IsMobile(width) ==> hidden == old(hidden)
      ensures indicatorHidden <==> scrollY > 300
      ensures lastScrollY == scrollY
      ensures active == if LastCovering(sections, ScrollPos(scrollY, width)).Some? then LastCovering(sections, ScrollPos(scrollY, width)) else old(active)
    {
      scrolled := scrollY > 100;
      if !IsMobile(width) {
        hidden := scrollY > lastScrollY && scrollY > 200;
      }
      indicatorHidden := scrollY > 300;
      UpdateActiveNavigation(scrollY, width, sections);
      lastScrollY := scrollY;
    }
  }

  // ---------------------------------------------------------------- theme

  /** `ThemeManager`: the body's `light-mode` class and the theme kept in local storage. */
  class Theme {
    var lightMode: bool
    var stored: Option<string>

    /** Light mode is on exactly when the stored theme is `light`. */
    ghost predicate Valid()
      reads this
    {
      stored.Some? && (lightMode <==> stored.value == "light")
    }

    /** `init`: the stored theme, else the system preference. */
    constructor (saved: Option<string>, prefersDark: bool)
      ensures Valid()
      ensures saved.Some? && saved.value != "" ==> stored == saved
      ensures !(saved.Some? && saved.value != "") ==> stored == Some(if prefersDark then "dark" else "light")
    {
      var theme := if saved.Some? && saved.value != "" then saved.value else if prefersDark then "dark" else "light";
      lightMode := theme == "light";
      stored := Some(theme);
    }

    /** `setTheme`: any name other than `light` gives the dark theme. */
    method SetTheme(theme: string)
      modifies this
      ensures Valid() && stored == Some(theme)
    {
      lightMode := theme == "light";
      stored := Some(theme);
    }

    /** `toggleTheme`: light becomes dark and anything else becomes light. */
    method ToggleTheme()
      modifies this
      ensures Valid() && lightMode == !old(lightMode)
      ensures stored == Some(if old(lightMode) then "dark" else "light")
    {
      SetTheme(if lightMode then "dark" else "light");
    }
  }

  // ---------------------------------------------------------------- contact form

  datatype ContactKind = EmailInput | TextInput | OtherInput

  datatype ContactField = ContactField(kind: ContactKind, value: string)

  const EMAIL_MESSAGE := "Please enter a valid email address"
  const SHORT_TEXT_MESSAGE := "This field must be at least 2 characters long"
  const SHORT_OTHER_MESSAGE := "This field must be at least 10 characters long"

  /** Whether a contact field passes: an e-mail address, or enough trimmed characters for its type. */
  predicate ContactValid(f: ContactField) {
    var v := Text.Trim(Text.JsSpace, f.value);
    match f.kind
    case EmailInput => EmailPattern.Check(v)
    case TextInput => |v| >= 2
    case OtherInput => |v| >= 10
  }

  /** An e-mail field passes iff its trimmed value matches the pattern; so a blank one fails. */
  lemma ContactEmailIsPattern(f: ContactField)
    requires f.kind == EmailInput
    ensures ContactValid(f) <==> EmailPattern.Matches(Text.Trim(Text.JsSpace, f.value))
    ensures Text.IsBlank(Text.JsSpace, f.value) ==> !ContactValid(f)
  {
    EmailPattern.CheckMatches(Text.Trim(Text.JsSpace, f.value));
    Text.TrimEmptyIffBlank(Text.JsSpace, f.value);
  }

  /** `ContactManager.validateField`: the switch on the field's type. */
  method ValidateContactField(f: ContactField) returns (isValid: bool, errorMessage: string)
    ensures isValid <==> ContactValid(f)
    ensures isValid ==> errorMessage == ""
    ensures !isValid ==> errorMessage == match f.kind
      case EmailInput => EMAIL_MESSAGE
      case TextInput => SHORT_TEXT_MESSAGE
      case OtherInput => SHORT_OTHER_MESSAGE
  {
    var value := Text.Trim(Text.JsSpace, f.value);
    isValid := true;
    errorMessage := "";
    match f.kind {
      case EmailInput =>
        if !EmailPattern.Check(value) {
          isValid := false;
          errorMessage := EMAIL_MESSAGE;
        }
      case TextInput =>
        if |value| < 2 {
          isValid := false;
          errorMessage := SHORT_TEXT_MESSAGE;
        }
      case OtherInput =>
        if |value| < 10 {
          isValid := false;
          errorMessage := SHORT_OTHER_MESSAGE;
        }
    }
  }

  /**
   * The gate of `handleSubmit`: every field is validated (each shows its own result, no
   * short-circuit), and the form is sent only if all pass.
   */
  method SubmitGate(fields: seq<ContactField>) returns (proceed: bool, results: seq<bool>)
    ensures |results| == |fields|
    ensures forall i :: 0 <= i < |fields| ==> results[i] == ContactValid(fields[i])
    ensures proceed <==> forall i :: 0 <= i < |fields| ==> ContactValid(fields[i])
  {
    proceed := true;
    results := [];
    var i := 0;
    while i < |fields|
      invariant 0 <= i <= |fields| && |results| == i
      invariant forall m :: 0 <= m < i ==> results[m] == ContactValid(fields[m])
      invariant proceed <==> forall m :: 0 <= m < i ==> ContactValid(fields[m])
    {
      var ok, _ := ValidateContactField(fields[i]);
      if !ok {
        proceed := false;
      }
      ValidStep(fields, results, i, ok);
      results := results + [ok];
      i := i + 1;
    }
  }

  lemma ValidStep(fields: seq<ContactField>, results: seq<bool>, i: nat, ok: bool)
    requires i < |fields| && |results| == i && ok == ContactValid(fields[i])
    requires forall m :: 0 <= m < i ==> results[m] == ContactValid(fields[m])
    ensures forall m :: 0 <= m < i + 1 ==> (results + [ok])[m] == ContactValid(fields[m])
  {
    forall m | 0 <= m < i + 1 ensures (results + [ok])[m] == ContactValid(fields[m]) {
      if m < i {
        assert (results + [ok])[m] == results[m];
      }
    }
  }
}
