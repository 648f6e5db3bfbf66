/**
 * The Flask admin panel's browser script: the form field validator, the guard that keeps
 * at least one entry in a dynamic list, the sortable table's direction indicator and row
 * comparator, and the table search filter. `parseFloat` is a parameter returning `None`
 * for NaN; `new URL(...)` succeeding is a parameter too; `localeCompare` is a parameter.
 */
module AdminPanel {
  import opened Wrappers
  import Text
  import EmailPattern

  // ---------------------------------------------------------------- field validation

  datatype Kind = TextField | EmailField | UrlField | NumberField

  /** A form control: its `type`, the `required` attribute, its value and the `min`/`max` attributes. */
  datatype Field = Field(kind: Kind, required: bool, value: string, min: Option<string>, max: Option<string>)

  const REQUIRED_MESSAGE := "This field is required"
  const EMAIL_MESSAGE := "Please enter a valid email address"
  const URL_MESSAGE := "Please enter a valid URL"
  const NUMBER_MESSAGE := "Please enter a valid number"

  function Value(f: Field): string {
    Text.Trim(Text.JsSpace, f.value)
  }

  predicate MissingRequired(f: Field) {
    f.required && Value(f) == ""
  }

  predicate BadEmail(f: Field) {
    f.kind == EmailField && Value(f) != "" && !EmailPattern.Check(Value(f))
  }

  /** The e-mail check rejects exactly the values the pattern does not match. */
  lemma BadEmailIsMismatch(f: Field)
    ensures BadEmail(f) <==> f.kind == EmailField && Value(f) != "" && !EmailPattern.Matches(Value(f))
  {
    EmailPattern.CheckMatches(Value(f));
  }

  predicate BadUrl(f: Field, isUrl: string -> bool) {
    f.kind == UrlField && Value(f) != "" && !isUrl(Value(f))
  }

  /** A bound attribute that is present and parses; a bound that is NaN compares false, so it never fails. */
  predicate Bound(attr: Option<string>, parse: string -> Option<real>) {
    attr.Some? && parse(attr.value).Some?
  }

  /** The number check's complaint, in the order the source tests: not a number, below `min`, above `max`. */
  function NumberError(f: Field, parse: string -> Option<real>): Option<string> {
    if f.kind != NumberField || Value(f) == "" then None
    else if parse(Value(f)).None? then Some(NUMBER_MESSAGE)
    else
      var n := parse(Value(f)).value;
      if Bound(f.min, parse) && n < parse(f.min.value).value then Some("Value must be at least " + f.min.value)
      else if Bound(f.max, parse) && n > parse(f.max.value).value then Some("Value must be at most " + f.max.value)
      else None
  }

  /**
   * `validateField`: the checks run one after another on the trimmed value, each able to
   * clear `isValid` and overwrite the message; the field is valid iff no check fails,
   * and the message is the failing check's.
   */
  method ValidateField(f: Field, isUrl: string -> bool, parse: string -> Option<real>)
    returns (isValid: bool, errorMessage: string)
    ensures isValid <==> !MissingRequired(f) && !BadEmail(f) && !BadUrl(f, isUrl) && NumberError(f, parse).None?
    ensures isValid ==> errorMessage == ""
    ensures MissingRequired(f) ==> errorMessage == REQUIRED_MESSAGE
    ensures BadEmail(f) ==> errorMessage == EMAIL_MESSAGE
    ensures BadUrl(f, isUrl) ==> errorMessage == URL_MESSAGE
    ensures NumberError(f, parse).Some? ==> errorMessage == NumberError(f, parse).value
  {
    var value := Value(f);
    isValid := true;
    errorMessage := "";
    if f.required && value == "" {
      isValid := false;
      errorMessage := REQUIRED_MESSAGE;
    }
    if f.kind == EmailField && value != "" {
      if !EmailPattern.Check(value) {
        isValid := false;
        errorMessage := EMAIL_MESSAGE;
      }
    }
    if f.kind == UrlField && value != "" {
      if !isUrl(value) {
        isValid := false;
        errorMessage := URL_MESSAGE;
      }
    }
    if f.kind == NumberField && value != "" {
      var num := parse(value);
      if num.None? {
        isValid := false;
        errorMessage := NUMBER_MESSAGE;
      } else if f.min.Some? && parse(f.min.value).Some? && num.value < parse(f.min.value).value {
        isValid := false;
        errorMessage := "Value must be at least " + f.min.value;
      } else if f.max.Some? && parse(f.max.value).Some? && num.value > parse(f.max.value).value {
        isValid := false;
        errorMessage := "Value must be at most " + f.max.value;
      }
    }
  }

  /** The numeric bounds are inclusive: a number passes iff it lies in `[min, max]`, bounds included. */
  lemma NumberBoundsInclusive(f: Field, parse: string -> Option<real>)
    requires f.kind == NumberField && Value(f) != "" && parse(Value(f)).Some?
    requires Bound(f.min, parse) && Bound(f.max, parse)
    ensures NumberError(f, parse).None? <==>
      parse(f.min.value).value <= parse(Value(f)).value <= parse(f.max.value).value
  {
  }

  /** An empty optional field is valid whatever its type. */
  lemma EmptyOptionalValid(f: Field, isUrl: string -> bool, parse: string -> Option<real>)
    requires !f.required && Text.IsBlank(Text.JsSpace, f.value)
    ensures !MissingRequired(f) && !BadEmail(f) && !BadUrl(f, isUrl) && NumberError(f, parse).None?
  {
    Text.TrimEmptyIffBlank(Text.JsSpace, f.value);
  }

  // ---------------------------------------------------------------- dynamic lists

  /** A `.dynamic-list` container: the values of its entries, in order. */
  class DynamicList {
    var items: seq<string>

    /** A list always shows at least one entry. */
    ghost predicate Valid()
      reads this
    {
      |items| >= 1
    }

    constructor (first: string)
      ensures Valid() && items == [first]
    {
      items := [first];
    }

    /** The add button: a new, empty entry at the end. */
    method AddItem()
      requires Valid()
      modifies this
      ensures Valid() && items == old(items) + [""]
    {
      items := items + [""];
    }

    /** The remove button: the entry goes only when the container has more than one child. */
    method RemoveItem(i: nat)
      requires Valid() && i < |items|
      modifies this
      ensures Valid()
      ensures |old(items)| > 1 ==> items == old(items)[..i] + old(items)[i + 1..]
      ensures |old(items)| == 1 ==> items == old(items)
    {
      if |items| > 1 {
        items := items[..i] + items[i + 1..];
      }
    }
  }

  // ---------------------------------------------------------------- sortable tables

  /** The `fa-sort`, `fa-sort-up` and `fa-sort-down` header indicators. */
  datatype SortIcon = Unsorted | Up | Down

  /** A click sorts ascending unless the column currently shows the up arrow. */
  predicate Ascending(icons: seq<SortIcon>, col: nat)
    requires col < |icons|
  {
    icons[col] != Up
  }

  /** The indicators after a click on `col`: the others reset, `col` shows the new direction. */
  function Clicked(icons: seq<SortIcon>, col: nat): (r: seq<SortIcon>)
    requires col < |icons|
    ensures |r| == |icons|
  {
    seq(|icons|, i requires 0 <= i < |icons| => if i != col then Unsorted else if Ascending(icons, col) then Up else Down)
  }

  /** Clicking the same column again always sorts the other way; the first click on any column sorts ascending. */
  lemma ClicksAlternate(icons: seq<SortIcon>, col: nat, other: nat)
    requires col < |icons| && other < |icons|
    ensures Ascending(Clicked(icons, col), col) == !Ascending(icons, col)
    ensures other != col ==> Ascending(Clicked(icons, col), other)
  {
    var r := Clicked(icons, col);
    assert r[col] == if Ascending(icons, col) then Up else Down;
    if other != col {
      assert r[other] == Unsorted;
    }
  }

  /**
   * The row comparator: numeric difference when both trimmed cells parse as numbers,
   * otherwise `localeCompare`, with the operands swapped for descending order.
   */
  function CompareCells(a: string, b: string, ascending: bool, parse: string -> Option<real>, collate: (string, string) -> int): real {
    var x, y := Text.Trim(Text.JsSpace, a), Text.Trim(Text.JsSpace, b);
    if parse(x).Some? && parse(y).Some? then
      if ascending then parse(x).value - parse(y).value else parse(y).value - parse(x).value
    else
      if ascending then collate(x, y) as real else collate(y, x) as real
  }

  /** Descending is ascending with the rows swapped, and numeric cells order by value. */
  lemma CompareCellsSpec(a: string, b: string, parse: string -> Option<real>, collate: (string, string) -> int)
    ensures CompareCells(a, b, false, parse, collate) == CompareCells(b, a, true, parse, collate)
    ensures var x, y := Text.Trim(Text.JsSpace, a), Text.Trim(Text.JsSpace, b);
      parse(x).Some? && parse(y).Some? ==>
        (CompareCells(a, b, true, parse, collate) < 0.0 <==> parse(x).value < parse(y).value)
  {
  }

  /** Whether a row's text contains the search term, both lowercased. */
  predicate RowMatches(row: string, term: string) {
    Text.Contains(Text.ToLower(row), Text.ToLower(term))
  }

  /** A data table: per sortable header its indicator, per body row its text and whether it is displayed. */
  class DataTable {
    var icons: seq<SortIcon>
    var rows: seq<string>
    var shown: seq<bool>
    var searchable: bool

    /** `initializeDataTables`: indicators unsorted, all rows shown, a search box only for more than five rows. */
    constructor (columns: nat, rowTexts: seq<string>)
      ensures icons == seq(columns, _ => Unsorted)
      ensures rows == rowTexts && shown == seq(|rowTexts|, _ => true)
      ensures searchable <==> |rowTexts| > 5
    {
      icons := seq(columns, _ => Unsorted);
      rows := rowTexts;
      shown := seq(|rowTexts|, _ => true);
      searchable := |rowTexts| > 5;
    }

    /** The header click of `sortTable`: the direction it sorts in and the new indicators. */
    method SortClick(col: nat) returns (ascending: bool)
      requires col < |icons|
      modifies this
      ensures ascending == Ascending(old(icons), col)
      ensures icons == Clicked(old(icons), col)
      ensures rows == old(rows) && shown == old(shown) && searchable == old(searchable)
    {
      ascending := icons[col] != Up;
      var i := 0;
      var next := icons;
      while i < |icons|
        invariant 0 <= i <= |icons| && |next| == |icons|
        invariant forall m :: 0 <= m < i && m != col ==> next[m] == Unsorted
        invariant forall m :: i <= m < |icons| ==> next[m] == icons[m]
      {
        if i != col {
          next := next[i := Unsorted];
        }
        i := i + 1;
      }
      next := next[col := if ascending then Up else Down];
      icons := next;
    }

    /** The search box's input handler: each row is displayed iff it matches the term. */
    method Search(term: string)
      modifies this
      ensures |shown| == |rows|
      ensures forall i :: 0 <= i < |rows| ==> (shown[i] <==> RowMatches(rows[i], term))
      ensures rows == old(rows) && icons == old(icons) && searchable == old(searchable)
    {
      var next := seq(|rows|, _ => true);
      var i := 0;
      while i < |rows|
        invariant 0 <= i <= |rows| && |next| == |rows|
        invariant forall m :: 0 <= m < i ==> (next[m] <==> RowMatches(rows[m], term))
      {
        next := next[i := RowMatches(rows[i], term)];
        i := i + 1;
      }
      shown := next;
    }
  }

  lemma LowerIdempotent(s: string)
    ensures Text.ToLower(Text.ToLower(s)) == Text.ToLower(s)
  {
  }

  /** The search ignores case and an empty term shows every row. */
  lemma SearchSpec(row: string, term: string)
    ensures RowMatches(row, term) == RowMatches(Text.ToLower(row), Text.ToLower(term))
    ensures RowMatches(row, "")
  {
    LowerIdempotent(row);
    LowerIdempotent(term);
    assert Text.OccursAt(Text.ToLower(row), Text.ToLower(""), 0);
  }
}
