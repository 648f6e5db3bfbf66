/**
 * The digital business card: the vCard 3.0 text `generateVCard` assembles (RFC 2426),
 * the phone links of `updateCardUI`, and the download file name of `handleContact`.
 * Text fields are strings; a missing (null) field is "", which `x || ''` renders the
 * same way. The revision timestamp is a parameter.
 */
module BusinessCard {
  import Seqs
  import Text

  datatype Person = Person(
    name: string, bio: string, phone: string, email: string, workContact: string,
    location: string, linkedinUrl: string, githubUrl: string)

  /** The most recent experience entry, or `{title: '', company: ''}` when there is none. */
  datatype Job = Job(title: string, company: string)

  const DEFAULT_ORG := "Rangsons Aerospace Private Limited"

  // ---------------------------------------------------------------- name

  /** `nameParts[0]`: the text before the first space. */
  function FirstName(name: string): (first: string)
    ensures ' ' !in first && Text.StartsWith(name, first)
    ensures |first| < |name| ==> name[|first|] == ' '
  {
    Text.SplitHead(name, ' ');
    Text.Split(name, ' ')[0]
  }

  /** `nameParts.slice(1).join(' ')`. */
  function LastName(name: string): string {
    Text.Join(Text.Split(name, ' ')[1..], " ")
  }

  /** The two name parts put back together with one space give the name; a name without a space is all first name. */
  lemma NameSplit(name: string)
    ensures ' ' in name ==> FirstName(name) + " " + LastName(name) == name
    ensures ' ' !in name ==> FirstName(name) == name && LastName(name) == ""
  {
    var parts := Text.Split(name, ' ');
    Text.JoinSplit(name, ' ');
    if |parts| == 1 {
      assert name == parts[0];
    } else {
      assert name == parts[0] + [' '] + Text.Join(parts[1..], [' ']);
      assert name[|parts[0]|] == ' ';
    }
  }

  /** The characters of both name parts come from the name. */
  lemma NamePartChars(name: string, c: char)
    ensures c in FirstName(name) ==> c in name
    ensures c in LastName(name) ==> c in name
  {
    NameSplit(name);
    if ' ' in name {
      var f, l := FirstName(name), LastName(name);
      assert c in f ==> c in f + " " + l;
      assert c in l ==> c in f + " " + l;
    }
  }

  /** The N property: family name, given name, and three empty components. */
  function NLine(name: string): string {
    "N:" + LastName(name) + ";" + FirstName(name) + ";;;"
  }

  /** Read back per RFC 2426, the N value of a name without ';' has the last name first and the first name second. */
  lemma NLineComponents(name: string)
    requires ';' !in name
    ensures Text.Split(NLine(name)[2..], ';') == [LastName(name), FirstName(name), "", "", ""]
  {
    var last, first := LastName(name), FirstName(name);
    NamePartChars(name, ';');
    var t3: string := [';'];
    var t2 := [';'] + t3;
    var t1 := first + [';'] + t2;
    assert NLine(name)[2..] == last + [';'] + t1;
    Text.SplitCons("", "", ';');
    assert t3 == "" + [';'] + "";
    Text.SplitCons("", t3, ';');
    assert t2 == "" + [';'] + t3;
    Text.SplitCons(first, t2, ';');
    Text.SplitCons(last, t1, ';');
  }

  // ---------------------------------------------------------------- title and organisation

  /** `job.title || (data.bio || '').split('\n')[0]`. */
  function Title(person: Person, job: Job): (title: string)
    ensures job.title != "" ==> title == job.title
    ensures job.title == "" ==>
      '\n' !in title && Text.StartsWith(person.bio, title) && (|title| == |person.bio| || person.bio[|title|] == '\n')
  {
    Text.SplitHead(person.bio, '\n');
    if job.title != "" then job.title else Text.Split(person.bio, '\n')[0]
  }

  /** `job.company || 'Rangsons Aerospace Private Limited'`. */
  function Org(job: Job): (org: string)
    ensures job.company != "" ==> org == job.company
    ensures job.company == "" ==> org == DEFAULT_ORG
  {
    if job.company != "" then job.company else DEFAULT_ORG
  }

  // ---------------------------------------------------------------- phone

  /** `phone.replace(/\s+/g, '')`, the number of the `tel:` link. */
  function TelNumber(phone: string): (r: string)
    ensures forall i :: 0 <= i < |r| ==> !Text.IsSpace(Text.JsSpace, r[i])
    ensures forall i :: 0 <= i < |phone| && !Text.IsSpace(Text.JsSpace, phone[i]) ==> phone[i] in r
  {
    Text.RemoveSpaces(phone)
  }

  /** `phone.replace(/\D/g, '')`, the number of the wa.me link. */
  function WhatsAppNumber(phone: string): (r: string)
    ensures forall i :: 0 <= i < |r| ==> Text.IsDigit(r[i])
    ensures forall i :: 0 <= i < |phone| && Text.IsDigit(phone[i]) ==> phone[i] in r
  {
    Text.KeepDigits(phone)
  }

  /**
   * Both numbers are worked out character by character, in order: each character of the
   * phone is kept or dropped on its own (white space dropped for `tel:`, everything but
   * digits for wa.me), and the kept ones stay in their order and multiplicity.
   */
  lemma {:induction false} PhoneNumbersPerCharacter(a: string, b: string, c: char)
    ensures TelNumber(a + b) == TelNumber(a) + TelNumber(b)
    ensures WhatsAppNumber(a + b) == WhatsAppNumber(a) + WhatsAppNumber(b)
    ensures TelNumber([c]) == if Text.IsSpace(Text.JsSpace, c) then "" else [c]
    ensures WhatsAppNumber([c]) == if Text.IsDigit(c) then [c] else ""
  {
    Seqs.FilterAppend(a, b, c => !Text.IsSpace(Text.JsSpace, c));
    Seqs.FilterAppend(a, b, c => Text.IsDigit(c));
    assert [c][1..] == [];
  }

  /** The two links carry the same digits in the same order, and a digits-only phone is used unchanged. */
  lemma PhoneLinksAgree(phone: string)
    ensures Text.KeepDigits(TelNumber(phone)) == WhatsAppNumber(phone)
    ensures (forall i :: 0 <= i < |phone| ==> Text.IsDigit(phone[i])) ==> WhatsAppNumber(phone) == phone
  {
    Seqs.FilterNarrow(phone, c => !Text.IsSpace(Text.JsSpace, c), c => Text.IsDigit(c));
    if forall i :: 0 <= i < |phone| ==> Text.IsDigit(phone[i]) {
      Seqs.FilterAll(phone, c => Text.IsDigit(c));
    }
  }

  function TelHref(phone: string): string {
    "tel:" + TelNumber(phone)
  }

  function WhatsAppHref(phone: string): string {
    "https://wa.me/" + WhatsAppNumber(phone)
  }

  // ---------------------------------------------------------------- the card

  const WORK_EMAIL := "EMAIL;TYPE=WORK,INTERNET:"

  /** The lines of the template literal; the work-email line is left empty when there is no work contact. */
  function VCardLines(person: Person, job: Job, rev: string): seq<string> {
    [ "BEGIN:VCARD",
      "VERSION:3.0",
      "FN:" + person.name,
      NLine(person.name),
      "ORG:" + Org(job),
      "TITLE:" + Title(person, job),
      "TEL;TYPE=WORK,VOICE:" + person.phone,
      "EMAIL;TYPE=HOME,INTERNET:" + person.email,
      if person.workContact != "" then WORK_EMAIL + person.workContact else "",
      "ADR;TYPE=WORK:;;" + person.location,
      "URL;TYPE=LinkedIn:" + person.linkedinUrl,
      "URL;TYPE=GitHub:" + person.githubUrl,
      "URL;TYPE=WhatsApp:" + WhatsAppHref(person.phone),
      "REV:" + rev,
      "END:VCARD" ]
  }

  function VCard(person: Person, job: Job, rev: string): string {
    Text.Join(VCardLines(person, job, rev), "\n")
  }

  /** No field of the card holds a line break. */
  predicate SingleLineFields(person: Person, job: Job, rev: string) {
    && '\n' !in person.name && '\n' !in person.phone && '\n' !in person.email
    && '\n' !in person.workContact && '\n' !in person.location && '\n' !in person.linkedinUrl
    && '\n' !in person.githubUrl && '\n' !in job.title && '\n' !in job.company && '\n' !in rev
  }

  /** Each line of the card is '\n'-free when the fields are. */
  lemma LinesSingle(person: Person, job: Job, rev: string)
    requires SingleLineFields(person, job, rev)
    ensures forall i :: 0 <= i < |VCardLines(person, job, rev)| ==> '\n' !in VCardLines(person, job, rev)[i]
  {
    HeadLinesSingle(person, job, rev);
    MiddleLinesSingle(person, job, rev);
    TailLinesSingle(person, job, rev);
  }

  /** The proof is split in three: one lemma over all fifteen lines is too large for the solver. */
  lemma HeadLinesSingle(person: Person, job: Job, rev: string)
    requires SingleLineFields(person, job, rev)
    ensures forall i :: 0 <= i < 5 ==> '\n' !in VCardLines(person, job, rev)[i]
  {
    var lines := VCardLines(person, job, rev);
    NamePartChars(person.name, '\n');
    assert '\n' !in lines[0] && '\n' !in lines[1] && '\n' !in lines[2];
    assert '\n' !in lines[3] && '\n' !in lines[4];
  }

  lemma MiddleLinesSingle(person: Person, job: Job, rev: string)
    requires SingleLineFields(person, job, rev)
    ensures forall i :: 5 <= i < 10 ==> '\n' !in VCardLines(person, job, rev)[i]
  {
    var lines := VCardLines(person, job, rev);
    assert '\n' !in lines[5] && '\n' !in lines[6] && '\n' !in lines[7];
    assert '\n' !in lines[8] && '\n' !in lines[9];
  }

  lemma TailLinesSingle(person: Person, job: Job, rev: string)
    requires SingleLineFields(person, job, rev)
    ensures forall i :: 10 <= i < 15 ==> '\n' !in VCardLines(person, job, rev)[i]
  {
    var lines := VCardLines(person, job, rev);
    assert '\n' !in lines[10] && '\n' !in lines[11] && '\n' !in lines[12];
    assert '\n' !in lines[13] && '\n' !in lines[14];
  }

  /**
   * Read back line by line, a card built from single-line fields has exactly its 15
   * lines: it opens with BEGIN:VCARD and VERSION:3.0, ends with END:VCARD, and the
   * work-email line is present exactly when there is a work contact.
   */
  lemma VCardLayout(person: Person, job: Job, rev: string)
    requires SingleLineFields(person, job, rev)
    ensures var lines := Text.Split(VCard(person, job, rev), '\n');
      && lines == VCardLines(person, job, rev)
      && |lines| == 15
      && lines[0] == "BEGIN:VCARD" && lines[1] == "VERSION:3.0" && lines[14] == "END:VCARD"
      && (lines[8] != "" <==> person.workContact != "")
  {
    LinesSingle(person, job, rev);
    Text.SplitJoin(VCardLines(person, job, rev), '\n');
  }

  /** The module-level `vcardData` string. */
  class Card {
    var vcardData: string

    constructor ()
      ensures vcardData == ""
    {
      vcardData := "";
    }

    /** `generateVCard`: replaces the stored card text. */
    method GenerateVCard(person: Person, job: Job, rev: string)
      modifies this
      ensures vcardData == VCard(person, job, rev)
    {
      vcardData := VCard(person, job, rev);
    }
  }

  // ---------------------------------------------------------------- download name

  /**
   * In the file name each maximal run of white space of the card name becomes one `_`:
   * a run between a part that does not end blank and one that does not start blank is
   * one `_`, and the parts on either side are treated on their own.
   */
  lemma {:induction false} DownloadNameSpaceRun(a: string, w: string, b: string)
    requires w != [] && Text.IsBlank(Text.JsSpace, w)
    requires a == [] || !Text.IsSpace(Text.JsSpace, a[|a| - 1])
    requires b == [] || !Text.IsSpace(Text.JsSpace, b[0])
    ensures DownloadName(a + w + b) == Text.ReplaceSpaceRuns(a, '_') + "_" + Text.ReplaceSpaceRuns(b, '_') + ".vcf"
  {
    Text.ReplaceSpaceRunsJoin(a, w, b, '_');
    assert |a + w + b| >= |w| > 0;
  }

  /** `${(name || 'contact').replace(/\s+/g, '_')}.vcf`. */
  function DownloadName(cardName: string): (r: string)
    ensures |r| >= 5 && r[|r| - 4..] == ".vcf"
    ensures forall i :: 0 <= i < |r| ==> !Text.IsSpace(Text.JsSpace, r[i])
    ensures cardName == "" ==> r == "contact.vcf"
    ensures cardName != "" && (forall i :: 0 <= i < |cardName| ==> !Text.IsSpace(Text.JsSpace, cardName[i])) ==>
      r == cardName + ".vcf"
  {
    var base := if cardName != "" then cardName else "contact";
    LettersNotSpace("contact");
    var stem := Text.ReplaceSpaceRuns(base, '_');
    NoSpaceAppend(stem, ".vcf");
    stem + ".vcf"
  }

  /** Lower-case letters are not white space. */
  lemma LettersNotSpace(s: string)
    requires forall i :: 0 <= i < |s| ==> 'a' <= s[i] <= 'z'
    ensures forall i :: 0 <= i < |s| ==> !Text.IsSpace(Text.JsSpace, s[i])
  {
  }

  /** Joining two strings without white space gives one without white space. */
  lemma NoSpaceAppend(a: string, b: string)
    requires forall i :: 0 <= i < |a| ==> !Text.IsSpace(Text.JsSpace, a[i])
    requires b == ".vcf"
    ensures forall i :: 0 <= i < |a + b| ==> !Text.IsSpace(Text.JsSpace, (a + b)[i])
  {
    assert !Text.IsSpace(Text.JsSpace, '.') && !Text.IsSpace(Text.JsSpace, 'v');
    assert !Text.IsSpace(Text.JsSpace, 'c') && !Text.IsSpace(Text.JsSpace, 'f');
    forall i | 0 <= i < |a + b| ensures !Text.IsSpace(Text.JsSpace, (a + b)[i]) {
      if i >= |a| {
        assert (a + b)[i] == b[i - |a|];
      }
    }
  }
}
