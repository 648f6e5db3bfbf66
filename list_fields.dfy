/**
 * The list-valued form fields: comma-separated tags, newline-separated
 * responsibilities, the blank-entry filter of the Flask forms, and the decoding of
 * list columns stored as JSON text. JSON itself is a parameter: `loads` returns None
 * where the decoder raises.
 */
module ListFields {
  import opened Wrappers
  import Seqs
  import Text

  // ---------------------------------------------------------------- tags

  predicate NonEmpty(s: string) {
    s != ""
  }

  function TrimJs(s: string): string {
    Text.Trim(Text.JsSpace, s)
  }

  /** `tags.split(',').map(tag => tag.trim()).filter(tag => tag !== '')`. */
  function ParseTags(s: string): (tags: seq<string>)
    ensures forall i :: 0 <= i < |tags| ==> tags[i] != "" && Text.IsTrimmed(Text.JsSpace, tags[i])
    ensures forall i :: 0 <= i < |tags| ==> ',' !in tags[i]
  {
    var pieces := Text.Split(s, ',');
    var trimmed := Seqs.Map(pieces, TrimJs);
    var r := Seqs.Filter(trimmed, NonEmpty);
    forall i | 0 <= i < |r|
      ensures Text.IsTrimmed(Text.JsSpace, r[i]) && ',' !in r[i]
    {
      var j :| 0 <= j < |trimmed| && trimmed[j] == r[i];
      Text.TrimTrimmed(Text.JsSpace, pieces[j]);
      Text.TrimChars(Text.JsSpace, pieces[j], ',');
    }
    r
  }

  /** Tags that are non-empty, trimmed and comma-free survive a join with ',' and a re-parse unchanged. */
  lemma {:induction false} ParseTagsJoin(tags: seq<string>)
    requires |tags| >= 1
    requires forall i :: 0 <= i < |tags| ==> tags[i] != "" && Text.IsTrimmed(Text.JsSpace, tags[i]) && ',' !in tags[i]
    ensures ParseTags(Text.Join(tags, ",")) == tags
  {
    Text.SplitJoin(tags, ',');
    var trimmed := Seqs.Map(tags, TrimJs);
    forall i | 0 <= i < |tags| ensures trimmed[i] == tags[i] {
      Text.TrimTrimmed(Text.JsSpace, tags[i]);
    }
    assert trimmed == tags;
    Seqs.FilterAll(tags, NonEmpty);
  }

  /** A comma-free string is one piece: its trimmed text, or no tag when that is empty. */
  lemma {:induction false} ParseTagsSingle(p: string)
    requires ',' !in p
    ensures ParseTags(p) == if TrimJs(p) != "" then [TrimJs(p)] else []
  {
    Text.SplitNoSep(p, ',');
    assert Seqs.Map([p], TrimJs) == [TrimJs(p)];
    assert [TrimJs(p)][1..] == [];
  }

  /** The text before the first comma becomes the first tag (when it is not blank), followed by the tags of the rest, in order. */
  lemma {:induction false} ParseTagsCons(p: string, t: string)
    requires ',' !in p
    ensures ParseTags(p + "," + t) == (if TrimJs(p) != "" then [TrimJs(p)] else []) + ParseTags(t)
  {
    Text.SplitCons(p, t, ',');
    var pieces := Text.Split(t, ',');
    assert Text.Split(p + "," + t, ',') == [p] + pieces;
    MapCons(p, pieces);
    var rest := Seqs.Map(pieces, TrimJs);
    Seqs.FilterAppend([TrimJs(p)], rest, NonEmpty);
    assert [TrimJs(p)][1..] == [];
  }

  lemma MapCons(p: string, pieces: seq<string>)
    ensures Seqs.Map([p] + pieces, TrimJs) == [TrimJs(p)] + Seqs.Map(pieces, TrimJs)
  {
    var all := Seqs.Map([p] + pieces, TrimJs);
    var rest := Seqs.Map(pieces, TrimJs);
    forall i | 1 <= i < |all| ensures all[i] == rest[i - 1] {
      assert ([p] + pieces)[i] == pieces[i - 1];
    }
  }

  // ---------------------------------------------------------------- responsibilities

  predicate NotBlankJs(line: string) {
    TrimJs(line) != ""
  }

  /** `text.split('\n').filter(line => line.trim() !== '')`: blank lines go, kept lines are not trimmed. */
  function ParseLines(s: string): (lines: seq<string>)
    ensures forall i :: 0 <= i < |lines| ==> !Text.IsBlank(Text.JsSpace, lines[i]) && '\n' !in lines[i]
    ensures forall i :: 0 <= i < |lines| ==> lines[i] in Text.Split(s, '\n')
  {
    var r := Seqs.Filter(Text.Split(s, '\n'), NotBlankJs);
    forall i | 0 <= i < |r| ensures !Text.IsBlank(Text.JsSpace, r[i]) {
      Text.TrimEmptyIffBlank(Text.JsSpace, r[i]);
    }
    r
  }

  /** Non-blank lines without '\n', leading and trailing white space included, survive a join and a re-parse unchanged. */
  lemma {:induction false} ParseLinesJoin(lines: seq<string>)
    requires |lines| >= 1
    requires forall i :: 0 <= i < |lines| ==> !Text.IsBlank(Text.JsSpace, lines[i]) && '\n' !in lines[i]
    ensures ParseLines(Text.Join(lines, "\n")) == lines
  {
    Text.SplitJoin(lines, '\n');
    forall i | 0 <= i < |lines| ensures NotBlankJs(lines[i]) {
      Text.TrimEmptyIffBlank(Text.JsSpace, lines[i]);
    }
    Seqs.FilterAll(lines, NotBlankJs);
  }

  /** A string without '\n' is one line: kept as it is unless it is blank. */
  lemma {:induction false} ParseLinesSingle(p: string)
    requires '\n' !in p
    ensures ParseLines(p) == if NotBlankJs(p) then [p] else []
  {
    Text.SplitNoSep(p, '\n');
    assert [p][1..] == [];
  }

  /** The text before the first '\n' becomes the first line (untrimmed, unless it is blank), followed by the lines of the rest, in order. */
  lemma {:induction false} ParseLinesCons(p: string, t: string)
    requires '\n' !in p
    ensures ParseLines(p + "\n" + t) == (if NotBlankJs(p) then [p] else []) + ParseLines(t)
  {
    Text.SplitCons(p, t, '\n');
    Seqs.FilterAppend([p], Text.Split(t, '\n'), NotBlankJs);
    assert [p][1..] == [];
  }

  /** A list field as the JSON body delivers it: already an array, a string to parse, or absent. */
  datatype ListInput = ArrayInput(items: seq<string>) | StringInput(text: string) | Absent

  /** `Array.isArray(x) ? x : x.split(...)...`; calling `split` on an absent field throws, which the handler reports as 500. */
  function ListFromInput(input: ListInput, parse: string -> seq<string>): (r: Result<seq<string>, string>)
    ensures input.ArrayInput? ==> r == Ok(input.items)
    ensures input.StringInput? ==> r == Ok(parse(input.text))
    ensures input.Absent? <==> r.Err?
  {
    match input
    case ArrayInput(items) => Ok(items)
    case StringInput(text) => Ok(parse(text))
    case Absent => Err("Cannot read properties of undefined (reading 'split')")
  }

  // ---------------------------------------------------------------- Flask blank-entry filter

  predicate NotBlankPy(x: string) {
    Text.Trim(Text.PySpace, x) != ""
  }

  /** `[x for x in xs if x.strip()]`. */
  function KeepNonBlank(xs: seq<string>): seq<string> {
    Seqs.Filter(xs, NotBlankPy)
  }

  /** The filter keeps exactly the entries that are not all white space, in their original order, untouched. */
  lemma KeepNonBlankSpec(xs: seq<string>)
    ensures forall i :: 0 <= i < |KeepNonBlank(xs)| ==> !Text.IsBlank(Text.PySpace, KeepNonBlank(xs)[i])
    ensures forall i :: 0 <= i < |xs| && !Text.IsBlank(Text.PySpace, xs[i]) ==> xs[i] in KeepNonBlank(xs)
    ensures forall i :: 0 <= i < |KeepNonBlank(xs)| ==> KeepNonBlank(xs)[i] in xs
    ensures (forall i :: 0 <= i < |xs| ==> !Text.IsBlank(Text.PySpace, xs[i])) ==> KeepNonBlank(xs) == xs
  {
    var r := KeepNonBlank(xs);
    forall i | 0 <= i < |r| ensures !Text.IsBlank(Text.PySpace, r[i]) {
      Text.TrimEmptyIffBlank(Text.PySpace, r[i]);
    }
    forall i | 0 <= i < |xs| && !Text.IsBlank(Text.PySpace, xs[i]) ensures xs[i] in r {
      Text.TrimEmptyIffBlank(Text.PySpace, xs[i]);
    }
    if forall i :: 0 <= i < |xs| ==> !Text.IsBlank(Text.PySpace, xs[i]) {
      forall i | 0 <= i < |xs| ensures NotBlankPy(xs[i]) {
        Text.TrimEmptyIffBlank(Text.PySpace, xs[i]);
      }
      Seqs.FilterAll(xs, NotBlankPy);
    }
  }

  /** Filtering two halves separately gives the filtered whole: order is kept. */
  lemma KeepNonBlankAppend(a: seq<string>, b: seq<string>)
    ensures KeepNonBlank(a + b) == KeepNonBlank(a) + KeepNonBlank(b)
  {
    Seqs.FilterAppend(a, b, NotBlankPy);
  }

  // ---------------------------------------------------------------- JSON list columns

  /** The Jinja `from_json` filter: a missing or empty value, or text the decoder rejects, gives []. */
  function FromJson<E>(value: Option<string>, loads: string -> Option<seq<E>>): (r: seq<E>)
    ensures value == None || value == Some("") ==> r == []
    ensures value.Some? && value.value != "" ==> r == loads(value.value).GetOr([])
  {
    if value.Some? && value.value != "" then loads(value.value).GetOr([]) else []
  }

  /** A list written with a matching encoder is read back by the filter. */
  lemma FromJsonRoundTrip<E>(xs: seq<E>, dumps: seq<E> -> string, loads: string -> Option<seq<E>>)
    requires loads(dumps(xs)) == Some(xs)
    requires dumps(xs) != ""
    ensures FromJson(Some(dumps(xs)), loads) == xs
  {
  }

  /** `JSON.parse(col || '[]')`: a NULL or empty column reads as []; text the parser rejects throws. */
  function DecodeListColumn<E>(col: Option<string>, parse: string -> Option<seq<E>>): (r: Result<seq<E>, string>)
    ensures col == None || col == Some("") ==> r == Ok([])
    ensures col.Some? && col.value != "" ==> (r.Ok? <==> parse(col.value).Some?)
    ensures r.Ok? && col.Some? && col.value != "" ==> r.value == parse(col.value).value
  {
    if col.None? || col.value == "" then Ok([])
    else match parse(col.value)
      case Some(xs) => Ok(xs)
      case None => Err("Unexpected token in JSON")
  }

  /** A column written with `JSON.stringify` of a list decodes back to that list. */
  lemma DecodeListColumnRoundTrip<E>(xs: seq<E>, stringify: seq<E> -> string, parse: string -> Option<seq<E>>)
    requires parse(stringify(xs)) == Some(xs)
    requires stringify(xs) != ""
    ensures DecodeListColumn(Some(stringify(xs)), parse) == Ok(xs)
  {
  }

  /** A list route's `rows.map(row => ({...row, col: JSON.parse(row.col || '[]')}))`: one bad column fails the whole answer. */
  function DecodeListColumns<E>(cols: seq<Option<string>>, parse: string -> Option<seq<E>>): (r: Result<seq<seq<E>>, string>)
    ensures r.Ok? <==> forall i :: 0 <= i < |cols| ==> DecodeListColumn(cols[i], parse).Ok?
    ensures r.Ok? ==> |r.value| == |cols| && forall i :: 0 <= i < |cols| ==> r.value[i] == DecodeListColumn(cols[i], parse).value
  {
    if cols == [] then Ok([])
    else
      match DecodeListColumn(cols[0], parse)
      case Err(e) => Err(e)
      case Ok(first) =>
        match DecodeListColumns(cols[1..], parse)
        case Err(e) =>
          Err(e)
        case Ok(rest) =>
          Ok([first] + rest)
  }

  /** Columns that are all NULL or empty decode to empty lists. */
  lemma {:induction false} MissingColumnsDecodeEmpty<E>(cols: seq<Option<string>>, parse: string -> Option<seq<E>>)
    requires forall i :: 0 <= i < |cols| ==> cols[i] == None || cols[i] == Some("")
    ensures DecodeListColumns(cols, parse).Ok?
    ensures forall i :: 0 <= i < |cols| ==> DecodeListColumns(cols, parse).value[i] == []
  {
    forall i | 0 <= i < |cols| ensures DecodeListColumn(cols[i], parse) == Ok([]) {
    }
  }
}
