/**
 * The translation of a stored question definition into what the renderer
 * consumes: the database question type to the component question type, the
 * options column to `{value, label}` objects, and the validation-rules column.
 */
module QuestionTypeMapping {
  import opened Wrappers
  import opened Text
  import opened JsValues

  /** The question types the database schema allows. */
  datatype DbQuestionType =
    | SHORT_TEXT | LONG_TEXT | EMAIL | PHONE | DATE | RATING | SCALE | YES_NO
    | SINGLE_CHOICE | MULTIPLE_CHOICE | DROPDOWN | FILE_UPLOAD | NUMBER | TIME

  /** The question kinds the renderer has a widget for. */
  datatype QuestionType =
    | ShortText | LongText | Email | Phone | DateKind | Rating | Scale | YesNo
    | SingleChoice | MultipleChoice | Dropdown | FileUpload | Matrix | Range

  function DbName(t: DbQuestionType): string {
    match t
    case SHORT_TEXT => "SHORT_TEXT"
    case LONG_TEXT => "LONG_TEXT"
    case EMAIL => "EMAIL"
    case PHONE => "PHONE"
    case DATE => "DATE"
    case RATING => "RATING"
    case SCALE => "SCALE"
    case YES_NO => "YES_NO"
    case SINGLE_CHOICE => "SINGLE_CHOICE"
    case MULTIPLE_CHOICE => "MULTIPLE_CHOICE"
    case DROPDOWN => "DROPDOWN"
    case FILE_UPLOAD => "FILE_UPLOAD"
    case NUMBER => "NUMBER"
    case TIME => "TIME"
  }

  /** The wire-level name of each component kind. */
  function WireName(k: QuestionType): string {
    match k
    case ShortText => "short-text"
    case LongText => "long-text"
    case Email => "email"
    case Phone => "phone"
    case DateKind => "date"
    case Rating => "rating"
    case Scale => "scale"
    case YesNo => "yes-no"
    case SingleChoice => "single-choice"
    case MultipleChoice => "multiple-choice"
    case Dropdown => "dropdown"
    case FileUpload => "file-upload"
    case Matrix => "matrix"
    case Range => "range"
  }

  function KebabChar(c: char): char {
    if 'A' <= c <= 'Z' then (c as int + 32) as char
    else if c == '_' then '-'
    else c
  }

  /** `SINGLE_CHOICE` to `single-choice`: upper-case letters lowered, `_` to `-`. */
  function Kebab(s: string): (r: string)
    ensures |r| == |s|
  {
    seq(|s|, i requires 0 <= i < |s| => KebabChar(s[i]))
  }

  /**
   * The lookup table of `mapQuestionType`. NUMBER and TIME fall back to
   * free text; every other type becomes its own kebab-case kind, and no
   * database type yields a matrix or a range widget.
   */
  function MapQuestionType(t: DbQuestionType): (r: QuestionType)
    ensures t == NUMBER || t == TIME ==> r == ShortText
    ensures r != Matrix && r != Range
  {
    match t
    case SHORT_TEXT => ShortText
    case LONG_TEXT => LongText
    case EMAIL => Email
    case PHONE => Phone
    case DATE => DateKind
    case RATING => Rating
    case SCALE => Scale
    case YES_NO => YesNo
    case SINGLE_CHOICE => SingleChoice
    case MULTIPLE_CHOICE => MultipleChoice
    case DROPDOWN => Dropdown
    case FILE_UPLOAD => FileUpload
    case NUMBER => ShortText
    case TIME => ShortText
  }

  /** Every database type other than NUMBER and TIME maps to the kind named by its kebab-case spelling. */
  lemma MapQuestionTypeKebab(t: DbQuestionType)
    requires t != NUMBER && t != TIME
    ensures WireName(MapQuestionType(t)) == Kebab(DbName(t))
  {
    if t.SHORT_TEXT? || t.LONG_TEXT? || t.EMAIL? || t.PHONE? {
      KebabTextNames();
    } else if t.DATE? || t.RATING? || t.SCALE? || t.YES_NO? {
      KebabScaleNames();
    } else {
      KebabChoiceNames();
    }
  }

  lemma KebabTextNames()
    ensures Kebab("SHORT_TEXT") == "short-text" && Kebab("LONG_TEXT") == "long-text"
    ensures Kebab("EMAIL") == "email" && Kebab("PHONE") == "phone"
  {
  }

  lemma KebabScaleNames()
    ensures Kebab("DATE") == "date" && Kebab("RATING") == "rating"
    ensures Kebab("SCALE") == "scale" && Kebab("YES_NO") == "yes-no"
  {
  }

  lemma KebabChoiceNames()
    ensures Kebab("SINGLE_CHOICE") == "single-choice" && Kebab("MULTIPLE_CHOICE") == "multiple-choice"
    ensures Kebab("DROPDOWN") == "dropdown" && Kebab("FILE_UPLOAD") == "file-upload"
  {
  }

  // ----- option slugs -----

  /** The characters JavaScript's regular-expression class `\s` matches. */
  predicate IsWhitespace(c: char) {
    var n := c as int;
    n == 0x09 || n == 0x0A || n == 0x0B || n == 0x0C || n == 0x0D || n == 0x20
    || n == 0xA0 || n == 0x1680 || (0x2000 <= n <= 0x200A) || n == 0x2028 || n == 0x2029
    || n == 0x202F || n == 0x205F || n == 0x3000 || n == 0xFEFF
  }

  predicate NoWhitespace(s: string) {
    forall i :: 0 <= i < |s| ==> !IsWhitespace(s[i])
  }

  predicate IsUpper(c: char) {
    'A' <= c <= 'Z'
  }

  predicate NoUpper(s: string) {
    forall i :: 0 <= i < |s| ==> !IsUpper(s[i])
  }

  function LowerChar(c: char): (d: char)
    ensures !IsUpper(d)
    ensures IsWhitespace(d) == IsWhitespace(c)
  {
    if IsUpper(c) then (c as int + 32) as char else c
  }

  /** `toLowerCase` on the ASCII letters. */
  function LowerCase(s: string): (r: string)
    ensures |r| == |s| && NoUpper(r)
  {
    seq(|s|, i requires 0 <= i < |s| => LowerChar(s[i]))
  }

  /** The longest suffix of `s` that does not start with whitespace. */
  function DropWhitespace(s: string): (r: string)
    ensures |r| <= |s| && r == s[|s| - |r|..]
    ensures r == [] || !IsWhitespace(r[0])
    ensures forall i :: 0 <= i < |s| - |r| ==> IsWhitespace(s[i])
  {
    if s == [] || !IsWhitespace(s[0]) then s else DropWhitespace(s[1..])
  }

  /** `replace(/\s+/g, '-')`: every maximal run of whitespace becomes one `-`. */
  function ReplaceWhitespaceRuns(s: string): string
    decreases |s|
  {
    if s == [] then []
    else if IsWhitespace(s[0]) then "-" + ReplaceWhitespaceRuns(DropWhitespace(s))
    else [s[0]] + ReplaceWhitespaceRuns(s[1..])
  }

  /** The value `parseOptions` derives from a plain string option. */
  function Slug(s: string): string {
    ReplaceWhitespaceRuns(LowerCase(s))
  }

  lemma {:induction false} ReplaceRunsNoWhitespace(s: string)
    ensures NoWhitespace(ReplaceWhitespaceRuns(s))
    decreases |s|
  {
    if s != [] {
      if IsWhitespace(s[0]) {
        ReplaceRunsNoWhitespace(DropWhitespace(s));
      } else {
        ReplaceRunsNoWhitespace(s[1..]);
      }
    }
  }

  lemma {:induction false} ReplaceRunsNoUpper(s: string)
    requires NoUpper(s)
    ensures NoUpper(ReplaceWhitespaceRuns(s))
    decreases |s|
  {
    if s != [] {
      if IsWhitespace(s[0]) {
        ReplaceRunsNoUpper(DropWhitespace(s));
      } else {
        ReplaceRunsNoUpper(s[1..]);
      }
    }
  }

  /** Text without whitespace is left alone by the run replacement. */
  lemma {:induction false} ReplaceRunsIdentity(s: string)
    requires NoWhitespace(s)
    ensures ReplaceWhitespaceRuns(s) == s
    decreases |s|
  {
    if s != [] {
      assert !IsWhitespace(s[0]);
      ReplaceRunsIdentity(s[1..]);
    }
  }

  lemma LowerCaseIdentity(s: string)
    requires NoUpper(s)
    ensures LowerCase(s) == s
  {
  }

  /** A slug has no whitespace and no upper-case letter. */
  lemma SlugShape(s: string)
    ensures NoWhitespace(Slug(s)) && NoUpper(Slug(s))
  {
    ReplaceRunsNoWhitespace(LowerCase(s));
    ReplaceRunsNoUpper(LowerCase(s));
  }

  /** Slugging a slug again changes nothing. */
  lemma SlugIdempotent(s: string)
    ensures Slug(Slug(s)) == Slug(s)
  {
    var t := Slug(s);
    SlugShape(s);
    LowerCaseIdentity(t);
    ReplaceRunsIdentity(t);
  }

  /** A one-word option's slug is the word lowered. */
  lemma SlugOfWord(s: string)
    requires NoWhitespace(s)
    ensures Slug(s) == LowerCase(s)
  {
    assert NoWhitespace(LowerCase(s));
    ReplaceRunsIdentity(LowerCase(s));
  }

  // ----- parseOptions -----

  function OptionObject(value: string, caption: string): Json {
    JObj(map["value" := JStr(value), "label" := JStr(caption)])
  }

  predicate HasValueAndLabel(j: Json) {
    j.JObj? && "value" in j.fields && "label" in j.fields
  }

  /** What `parseOptions` makes of the element at index `idx`. */
  function ParseOption(opt: Json, idx: nat): (r: Json)
    ensures HasValueAndLabel(r)
  {
    match opt
    case JStr(s) => OptionObject(Slug(s), s)
    case _ =>
      if HasValueAndLabel(opt) then opt
      else OptionObject("option-" + IntToDecimal(idx), JsString(opt))
  }

  /** `parseOptions`: a falsy or non-array column gives no options. */
  function ParseOptions(j: Json): (r: seq<Json>)
    ensures !j.JArr? ==> r == []
    ensures j.JArr? ==> |r| == |j.elems|
    ensures forall i :: 0 <= i < |r| ==> HasValueAndLabel(r[i])
  {
    if Falsy(j) then []
    else
      match j
      case JArr(a) => seq(|a|, i requires 0 <= i < |a| => ParseOption(a[i], i))
      case _ => []
  }

  /** Element by element: a string is slugged, a `{value, label}` object kept, anything else numbered. */
  lemma ParseOptionsAt(a: seq<Json>, i: nat)
    requires i < |a|
    ensures |ParseOptions(JArr(a))| == |a|
    ensures a[i].JStr? ==> ParseOptions(JArr(a))[i] == OptionObject(Slug(a[i].s), a[i].s)
    ensures HasValueAndLabel(a[i]) ==> ParseOptions(JArr(a))[i] == a[i]
    ensures !a[i].JStr? && !HasValueAndLabel(a[i]) ==>
      ParseOptions(JArr(a))[i] == OptionObject("option-" + IntToDecimal(i), JsString(a[i]))
  {
  }

  lemma SlugOfLowered(s: string, low: string)
    requires LowerCase(s) == low && NoWhitespace(low)
    ensures Slug(s) == low
  {
    ReplaceRunsIdentity(low);
  }

  lemma SlugOfAcute()
    ensures Slug("Acute") == "acute"
  {
    assert LowerCase("Acute") == "acute";
    SlugOfLowered("Acute", "acute");
  }

  lemma SlugOfChronic()
    ensures Slug("Chronic") == "chronic"
  {
    assert LowerCase("Chronic") == "chronic";
    SlugOfLowered("Chronic", "chronic");
  }

  lemma SlugOfBoth()
    ensures Slug("Both") == "both"
  {
    assert LowerCase("Both") == "both";
    SlugOfLowered("Both", "both");
  }

  lemma SlugOfNotApplicable()
    ensures Slug("N/A") == "n/a"
  {
    assert LowerCase("N/A") == "n/a";
    SlugOfLowered("N/A", "n/a");
  }

  /** The choice options of the seed data: values acute, chronic, both and n/a, each with its original label. */
  lemma SeedOptions()
    ensures var r := ParseOptions(JArr([JStr("Acute"), JStr("Chronic"), JStr("Both"), JStr("N/A")]));
      && |r| == 4
      && r[0] == OptionObject("acute", "Acute") && r[1] == OptionObject("chronic", "Chronic")
      && r[2] == OptionObject("both", "Both") && r[3] == OptionObject("n/a", "N/A")
  {
    var a := [JStr("Acute"), JStr("Chronic"), JStr("Both"), JStr("N/A")];
    SlugOfAcute();
    SlugOfChronic();
    SlugOfBoth();
    SlugOfNotApplicable();
    ParseOptionsAt(a, 0);
    ParseOptionsAt(a, 1);
    ParseOptionsAt(a, 2);
    ParseOptionsAt(a, 3);
  }

  predicate AllWhitespace(w: string) {
    forall i :: 0 <= i < |w| ==> IsWhitespace(w[i])
  }

  lemma {:induction false} DropWhitespaceRun(w: string, v: string)
    requires AllWhitespace(w)
    requires v == [] || !IsWhitespace(v[0])
    ensures DropWhitespace(w + v) == v
  {
    if w != [] {
      assert (w + v)[1..] == w[1..] + v;
      DropWhitespaceRun(w[1..], v);
    }
  }

  /** One run of whitespace, however long, between two words becomes a single `-`. */
  lemma {:induction false} ReplaceRunsJoin(u: string, w: string, v: string)
    requires NoWhitespace(u) && NoWhitespace(v)
    requires w != [] && AllWhitespace(w)
    ensures ReplaceWhitespaceRuns(u + w + v) == u + "-" + v
  {
    if u == [] {
      assert u + w + v == w + v;
      DropWhitespaceRun(w, v);
      ReplaceRunsIdentity(v);
    } else {
      assert (u + w + v)[1..] == u[1..] + w + v;
      ReplaceRunsJoin(u[1..], w, v);
    }
  }

  // ----- parseValidationRules -----

  /**
   * `parseValidationRules`: the column is handed on as it is when it is a
   * JSON object or array, with no check of its fields; otherwise undefined.
   */
  function ParseValidationRules(j: Json): (r: Option<Json>)
    ensures r.Some? <==> (j.JObj? || j.JArr?)
    ensures r.Some? ==> r.value == j
  {
    if Falsy(j) || !TypeofObject(j) then None else Some(j)
  }
}
