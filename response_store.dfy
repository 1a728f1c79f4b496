/**
 * The questionnaire router's storage rules: how an answer is classified into
 * one of a response record's six value fields, how the upsert writes them,
 * which field is read back, and the submission life cycle (get-or-create,
 * save, submit, progress) over a database modelled as maps.
 */
module ResponseStore {
  import opened Wrappers
  import opened JsValues

  /** A response record's six nullable value fields. */
  datatype Fields = Fields(
    text: Option<string>,
    number: Option<int>,
    date: Option<Date>,
    boolean: Option<bool>,
    json: Option<Json>,
    fileUrl: Option<string>)

  const EmptyFields: Fields := Fields(None, None, None, None, None, None)

  /** One field of an update: left out (untouched), or given, possibly as null. */
  datatype Write<T> = Keep | Put(v: Option<T>)

  /** The `responseData` object built for one answer. */
  datatype Patch = Patch(
    text: Write<string>,
    number: Write<int>,
    date: Write<Date>,
    boolean: Write<bool>,
    json: Write<Json>,
    fileUrl: Write<string>)

  const ClearAll: Patch := Patch(Put(None), Put(None), Put(None), Put(None), Put(None), Put(None))

  predicate IsNullish(v: Unknown)
  {
    v == Undefined || v == Value(JNull)
  }

  function CountPut<T>(w: Write<T>): nat
  {
    if w.Put? then 1 else 0
  }

  /** How many fields the patch gives. */
  function Written(p: Patch): nat
  {
    CountPut(p.text) + CountPut(p.number) + CountPut(p.date) + CountPut(p.boolean) + CountPut(p.json) + CountPut(p.fileUrl)
  }

  /**
   * The field an answer goes to, by its JavaScript type: a string to the text
   * field, a number to the number field, a boolean to the boolean field, a
   * `Date` to the date field, any other non-null value to the JSON field;
   * null and undefined clear all six.
   */
  function Classify(v: Unknown): (p: Patch)
    ensures IsNullish(v) <==> p == ClearAll
    ensures !IsNullish(v) ==> Written(p) == 1 && p.fileUrl == Keep
    ensures p.fileUrl == Keep || p.fileUrl == Put(None)
    ensures v.Value? && v.json.JStr? ==> p.text == Put(Some(v.json.s))
    ensures v.Value? && v.json.JNum? ==> p.number == Put(Some(v.json.n))
    ensures v.Value? && v.json.JBool? ==> p.boolean == Put(Some(v.json.b))
    ensures v.DateObj? ==> p.date == Put(Some(v.date))
    ensures v.Value? && (v.json.JArr? || v.json.JObj?) ==> p.json == Put(Some(v.json))
  {
    match v
    case Value(JStr(s)) => Patch(Put(Some(s)), Keep, Keep, Keep, Keep, Keep)
    case Value(JNum(n)) => Patch(Keep, Put(Some(n)), Keep, Keep, Keep, Keep)
    case Value(JBool(b)) => Patch(Keep, Keep, Keep, Put(Some(b)), Keep, Keep)
    case DateObj(d) => Patch(Keep, Keep, Put(Some(d)), Keep, Keep, Keep)
    case Value(JArr(_)) => Patch(Keep, Keep, Keep, Keep, Put(Some(v.json)), Keep)
    case Value(JObj(_)) => Patch(Keep, Keep, Keep, Keep, Put(Some(v.json)), Keep)
    case Value(JNull) => ClearAll
    case Undefined => ClearAll
  }

  function WriteField<T>(current: Option<T>, w: Write<T>): (r: Option<T>)
    ensures w.Keep? ==> r == current
    ensures w.Put? ==> r == w.v
  {
    match w
    case Keep => current
    case Put(x) => x
  }

  /** The update branch of the upsert: only the fields the patch gives change. */
  function Apply(f: Fields, p: Patch): Fields
  {
    Fields(
      WriteField(f.text, p.text),
      WriteField(f.number, p.number),
      WriteField(f.date, p.date),
      WriteField(f.boolean, p.boolean),
      WriteField(f.json, p.json),
      WriteField(f.fileUrl, p.fileUrl))
  }

  /**
   * The upsert: a field the patch gives takes the given value; any other field
   * keeps the existing record's value, or is null when the record is created.
   */
  function Upsert(existing: Option<Fields>, p: Patch): (r: Fields)
    ensures p.text.Put? ==> r.text == p.text.v
    ensures p.text.Keep? ==> r.text == if existing.Some? then existing.value.text else None
    ensures p.number.Put? ==> r.number == p.number.v
    ensures p.number.Keep? ==> r.number == if existing.Some? then existing.value.number else None
    ensures p.date.Put? ==> r.date == p.date.v
    ensures p.date.Keep? ==> r.date == if existing.Some? then existing.value.date else None
    ensures p.boolean.Put? ==> r.boolean == p.boolean.v
    ensures p.boolean.Keep? ==> r.boolean == if existing.Some? then existing.value.boolean else None
    ensures p.json.Put? ==> r.json == p.json.v
    ensures p.json.Keep? ==> r.json == if existing.Some? then existing.value.json else None
    ensures p.fileUrl.Put? ==> r.fileUrl == p.fileUrl.v
    ensures p.fileUrl.Keep? ==> r.fileUrl == if existing.Some? then existing.value.fileUrl else None
  {
    Apply(existing.GetOr(EmptyFields), p)
  }

  /** The value read back: the first non-null field in the order text, number, date, boolean, JSON, file URL; else null. */
  function ReadBack(f: Fields): (v: Unknown)
    ensures f == EmptyFields ==> v == Value(JNull)
    ensures v == Value(JNull) && f.json != Some(JNull) ==> f == EmptyFields
    ensures f.text.Some? ==> v == Value(JStr(f.text.value))
    ensures v.DateObj? ==> f.text.None? && f.number.None? && f.date == Some(v.date)
  {
    if f.text.Some? then Value(JStr(f.text.value))
    else if f.number.Some? then Value(JNum(f.number.value))
    else if f.date.Some? then DateObj(f.date.value)
    else if f.boolean.Some? then Value(JBool(f.boolean.value))
    else if f.json.Some? then Value(f.json.value)
    else if f.fileUrl.Some? then Value(JStr(f.fileUrl.value))
    else Value(JNull)
  }

  /** Whether a field read before the one `v` goes to is set in `f`. */
  predicate Shadowed(f: Fields, v: Unknown)
  {
    match v
    case Value(JStr(_)) => false
    case Value(JNum(_)) => f.text.Some?
    case DateObj(_) => f.text.Some? || f.number.Some?
    case Value(JBool(_)) => f.text.Some? || f.number.Some? || f.date.Some?
    case _ => f.text.Some? || f.number.Some? || f.date.Some? || f.boolean.Some?
  }

  /** Round trip on a fresh record: any non-null answer saved into a new record reads back unchanged. */
  lemma FreshRoundTrip(v: Unknown)
    requires !IsNullish(v)
    ensures ReadBack(Upsert(None, Classify(v))) == v
  {
  }

  /**
   * Saving over an existing record reads back the new answer exactly when no
   * field read before the new one is still set: the update leaves the other
   * fields as they were.
   */
  lemma OverwriteReadBack(f: Fields, v: Unknown)
    requires !IsNullish(v) && v != Value(JNull)
    requires v.Value? ==> v.json.JStr? || v.json.JNum? || v.json.JBool? || v.json.JArr? || v.json.JObj?
    ensures ReadBack(Upsert(Some(f), Classify(v))) == v <==> !Shadowed(f, v)
  {
  }

  /** A null or undefined answer clears the record, which then reads back as null, whatever it held. */
  lemma ClearReadsNull(existing: Option<Fields>, v: Unknown)
    requires IsNullish(v)
    ensures Upsert(existing, Classify(v)) == EmptyFields
    ensures ReadBack(Upsert(existing, Classify(v))) == Value(JNull)
  {
  }

  /** No answer ever gives the file URL field a value. */
  lemma FileUrlNeverSet(existing: Option<Fields>, v: Unknown)
    ensures Upsert(existing, Classify(v)).fileUrl == if IsNullish(v) || existing.None? then None else existing.value.fileUrl
  {
  }

  /** A number saved over an earlier text answer leaves the text in place, and the text is what is read back. */
  lemma NumberOverTextReadsText(earlier: string, n: int)
    ensures var f := Upsert(Some(Upsert(None, Classify(Value(JStr(earlier))))), Classify(Value(JNum(n))));
      f.text == Some(earlier) && f.number == Some(n) && ReadBack(f) == Value(JStr(earlier))
  {
  }

  datatype SubmissionStatus = InProgress | Submitted

  datatype Submission = Submission(
    id: nat,
    status: SubmissionStatus,
    currentPageId: Option<string>,
    lastSavedAt: Option<int>,
    submittedAt: Option<int>)

  /** A page, as its sections' question ids. */
  datatype Page = Page(sections: seq<seq<string>>)

  /** The active form, with its pages. */
  datatype Form = Form(id: string, pages: seq<Page>)

  /** Submissions are keyed by (form id, user id); responses by (submission id, question id). */
  type SubmissionKey = (string, string)
  type ResponseKey = (nat, string)

  /** `flatMap` over the sections: the page's question ids in order. */
  function QuestionIds(sections: seq<seq<string>>): (r: seq<string>)
    ensures forall q :: q in r <==> exists i :: 0 <= i < |sections| && q in sections[i]
  {
    if sections == [] then []
    else
      var init := sections[..|sections| - 1];
      var r := QuestionIds(init) + sections[|sections| - 1];
      assert forall i :: 0 <= i < |init| ==> init[i] == sections[i];
      r
  }

  /** The number of questions of all the form's pages (the nested `reduce`). */
  function TotalQuestions(pages: seq<Page>): (n: nat)
    ensures pages == [] ==> n == 0
  {
    if pages == [] then 0
    else TotalQuestions(pages[..|pages| - 1]) + |QuestionIds(pages[|pages| - 1].sections)|
  }

  function Lookup(responses: map<ResponseKey, Fields>, k: ResponseKey): Option<Fields>
  {
    if k in responses then Some(responses[k]) else None
  }

  /** One entry of `saveResponses`: skipped when its question is not on the page, otherwise upserted. */
  function ApplyEntry(responses: map<ResponseKey, Fields>, sid: nat, questions: set<string>, entry: (string, Unknown)): (r: map<ResponseKey, Fields>)
    ensures entry.0 !in questions ==> r == responses
    ensures entry.0 in questions ==> r == responses[(sid, entry.0) := Upsert(Lookup(responses, (sid, entry.0)), Classify(entry.1))]
  {
    if entry.0 in questions then
      responses[(sid, entry.0) := Upsert(Lookup(responses, (sid, entry.0)), Classify(entry.1))]
    else responses
  }

  /** All the entries, one after another. */
  function ApplyEntries(responses: map<ResponseKey, Fields>, sid: nat, questions: set<string>, entries: seq<(string, Unknown)>): map<ResponseKey, Fields>
  {
    if entries == [] then responses
    else ApplyEntry(ApplyEntries(responses, sid, questions, entries[..|entries| - 1]), sid, questions, entries[|entries| - 1])
  }

  /** Records of other submissions, and of questions not on the page, are never touched. */
  lemma {:induction false} ApplyEntriesFrame(responses: map<ResponseKey, Fields>, sid: nat, questions: set<string>, entries: seq<(string, Unknown)>)
    ensures var r := ApplyEntries(responses, sid, questions, entries);
      forall k: ResponseKey :: (k.0 != sid || k.1 !in questions) ==> Lookup(r, k) == Lookup(responses, k)
    ensures ApplyEntries(responses, sid, questions, entries).Keys <= responses.Keys + set e | e in entries && e.0 in questions :: (sid, e.0)
  {
    if entries != [] {
      ApplyEntriesFrame(responses, sid, questions, entries[..|entries| - 1]);
    }
  }

  /** Entries whose question ids are not on the page change nothing. */
  lemma {:induction false} UnknownQuestionsSkipped(responses: map<ResponseKey, Fields>, sid: nat, questions: set<string>, entries: seq<(string, Unknown)>)
    requires forall e :: e in entries ==> e.0 !in questions
    ensures ApplyEntries(responses, sid, questions, entries) == responses
  {
    if entries != [] {
      var init := entries[..|entries| - 1];
      assert forall e :: e in init ==> e in entries;
      assert entries[|entries| - 1] in entries;
      UnknownQuestionsSkipped(responses, sid, questions, init);
    }
  }

  /** The last entry for a question on the page decides its record. */
  lemma LastEntryWins(responses: map<ResponseKey, Fields>, sid: nat, questions: set<string>, entries: seq<(string, Unknown)>, q: string, v: Unknown)
    requires q in questions
    ensures var r := ApplyEntries(responses, sid, questions, entries + [(q, v)]);
      (sid, q) in r && r[(sid, q)] == Upsert(Lookup(ApplyEntries(responses, sid, questions, entries), (sid, q)), Classify(v))
  {
    assert (entries + [(q, v)])[..|entries|] == entries;
  }

  /** Entries with distinct question ids, as the keys of the posted record are. */
  predicate DistinctKeys(entries: seq<(string, Unknown)>)
  {
    forall i, j :: 0 <= i < j < |entries| ==> entries[i].0 != entries[j].0
  }

  /** Entries for other questions leave a question's record as it was. */
  lemma {:induction false} ApplyEntriesOtherQuestion(responses: map<ResponseKey, Fields>, sid: nat, questions: set<string>, entries: seq<(string, Unknown)>, q: string)
    requires forall e :: e in entries ==> e.0 != q
    ensures Lookup(ApplyEntries(responses, sid, questions, entries), (sid, q)) == Lookup(responses, (sid, q))
  {
    if entries != [] {
      var init := entries[..|entries| - 1];
      assert forall e :: e in init ==> e in entries;
      assert entries[|entries| - 1] in entries;
      ApplyEntriesOtherQuestion(responses, sid, questions, init, q);
    }
  }

  /**
   * With distinct question ids, every entry for a question on the page leaves
   * that question's record as the upsert of its answer into the record from
   * before the save.
   */
  lemma {:induction false} EachEntryUpserted(responses: map<ResponseKey, Fields>, sid: nat, questions: set<string>, entries: seq<(string, Unknown)>, i: nat)
    requires DistinctKeys(entries)
    requires i < |entries| && entries[i].0 in questions
    ensures var r := ApplyEntries(responses, sid, questions, entries);
      var q := entries[i].0;
      (sid, q) in r && r[(sid, q)] == Upsert(Lookup(responses, (sid, q)), Classify(entries[i].1))
  {
    var n := |entries|;
    var init := entries[..n - 1];
    var last := entries[n - 1];
    if i == n - 1 {
      forall e | e in init
        ensures e.0 != last.0
      {
        var j :| 0 <= j < |init| && init[j] == e;
        assert entries[j] == e;
      }
      ApplyEntriesOtherQuestion(responses, sid, questions, init, last.0);
    } else {
      assert DistinctKeys(init) by {
        forall a, b | 0 <= a < b < |init|
          ensures init[a].0 != init[b].0
        {
          assert init[a] == entries[a] && init[b] == entries[b];
        }
      }
      assert init[i] == entries[i];
      EachEntryUpserted(responses, sid, questions, init, i);
      assert last.0 != entries[i].0;
    }
  }

  /** The response map `getPageResponses` returns for a submission and a page's questions. */
  function PageResponses(responses: map<ResponseKey, Fields>, sid: nat, questionIds: seq<string>): map<string, Unknown>
  {
    map q | q in questionIds && (sid, q) in responses :: ReadBack(responses[(sid, q)])
  }

  /** `Math.round(answered / total * 100)`, or 0 when there are no questions. */
  function Percentage(answered: nat, total: nat): (p: int)
    ensures total == 0 ==> p == 0
  {
    if total > 0 then (200 * answered + total) / (2 * total) else 0
  }

  /** The percentage is the nearest integer to 100·answered/total, halves rounding up. */
  lemma PercentageRounds(answered: nat, total: nat)
    requires total > 0
    ensures var p := Percentage(answered, total);
      2 * total * p <= 200 * answered + total < 2 * total * p + 2 * total
  {
    var p := Percentage(answered, total);
    var num := 200 * answered + total;
    assert num == (2 * total) * p + num % (2 * total);
  }

  lemma MulMonotone(x: int, y: int, z: int)
    requires x >= 0 && y <= z
    ensures x * y <= x * z
  {
  }

  /** All questions answered is 100, none is 0, and anything in between stays within 0..100. */
  lemma PercentageBounds(answered: nat, total: nat)
    requires answered <= total
    ensures 0 <= Percentage(answered, total) <= 100
    ensures total > 0 && answered == total ==> Percentage(answered, total) == 100
    ensures answered == 0 ==> Percentage(answered, total) == 0
  {
    if total > 0 {
      var p := Percentage(answered, total);
      PercentageRounds(answered, total);
      MulMonotone(200, answered, total);
      if p >= 101 {
        MulMonotone(2 * total, 101, p);
        assert false;
      }
      if answered == total && p <= 99 {
        MulMonotone(2 * total, p, 99);
        assert false;
      }
      if answered == 0 && p >= 1 {
        MulMonotone(2 * total, 1, p);
        assert false;
      }
    }
  }

  /** The records `getProgress` counts as answered: every record of the submission, cleared ones included. */
  function Answered(responses: map<ResponseKey, Fields>, sid: nat): nat
  {
    |set k | k in responses && k.0 == sid|
  }

  /** A cleared answer still counts towards progress. */
  lemma ClearedAnswerCounts(responses: map<ResponseKey, Fields>, sid: nat, q: string)
    requires (sid, q) in responses
    ensures Answered(responses[(sid, q) := EmptyFields], sid) == Answered(responses, sid)
  {
    var updated := responses[(sid, q) := EmptyFields];
    assert (set k | k in updated && k.0 == sid) == (set k | k in responses && k.0 == sid);
  }

  datatype ProgressReport = ProgressReport(percentage: int, answered: nat, total: nat)

  /** The database: the active form, the pages by id, the submissions and the responses. */
  class Store {
    var activeForm: Option<Form>
    var pages: map<string, Page>
    var submissions: map<SubmissionKey, Submission>
    var responses: map<ResponseKey, Fields>
    var nextId: nat

    /** Submission ids are fresh: each is below `nextId` and no two submissions share one. */
    predicate Valid()
      reads this
    {
      && (forall k :: k in submissions ==> submissions[k].id < nextId)
      && (forall k1, k2 :: k1 in submissions && k2 in submissions && k1 != k2 ==> submissions[k1].id != submissions[k2].id)
    }

    constructor (activeForm: Option<Form>, pages: map<string, Page>)
      ensures Valid()
      ensures this.activeForm == activeForm && this.pages == pages
      ensures submissions == map[] && responses == map[] && nextId == 0
    {
      this.activeForm := activeForm;
      this.pages := pages;
      submissions := map[];
      responses := map[];
      nextId := 0;
    }

    /** The submission of (form, user), created `IN_PROGRESS` with a fresh id when there is none. */
    method FindOrCreate(formId: string, user: string) returns (s: Submission)
      requires Valid()
      modifies this
      ensures Valid()
      ensures (formId, user) in old(submissions) ==> s == old(submissions)[(formId, user)] && submissions == old(submissions) && nextId == old(nextId)
      ensures (formId, user) !in old(submissions) ==>
        s == Submission(old(nextId), InProgress, None, None, None) && submissions == old(submissions)[(formId, user) := s] && nextId == old(nextId) + 1
      ensures submissions[(formId, user)] == s
      ensures activeForm == old(activeForm) && pages == old(pages) && responses == old(responses)
    {
      var key := (formId, user);
      if key in submissions {
        s := submissions[key];
      } else {
        s := Submission(nextId, InProgress, None, None, None);
        submissions := submissions[key := s];
        nextId := nextId + 1;
      }
    }

    /** `getSubmission`: an error without an active form, otherwise the user's submission, created on first use. */
    method GetSubmission(user: string) returns (r: Result<Submission, string>)
      requires Valid()
      modifies this
      ensures Valid()
      ensures activeForm == old(activeForm) && pages == old(pages) && responses == old(responses)
      ensures old(activeForm).None? ==> r == Err("No active form found") && submissions == old(submissions) && nextId == old(nextId)
      ensures old(activeForm).Some? ==> r.Ok? && (activeForm.value.id, user) in submissions && submissions[(activeForm.value.id, user)] == r.value
      ensures old(activeForm).Some? && (activeForm.value.id, user) in old(submissions) ==> r == Ok(old(submissions)[(activeForm.value.id, user)]) && submissions == old(submissions)
      ensures old(activeForm).Some? && (activeForm.value.id, user) !in old(submissions) ==>
        r == Ok(Submission(old(nextId), InProgress, None, None, None)) && submissions == old(submissions)[(activeForm.value.id, user) := r.value]
    {
      if activeForm.None? {
        return Err("No active form found");
      }
      var s := FindOrCreate(activeForm.value.id, user);
      r := Ok(s);
    }

    /** The question ids of a page, gathered section by section (`questionMap.set` in the nested loops). */
    method QuestionSet(page: Page) returns (qs: set<string>)
      ensures qs == set q | q in QuestionIds(page.sections)
    {
      qs := {};
      var i := 0;
      while i < |page.sections|
        invariant 0 <= i <= |page.sections|
        invariant qs == set q | q in QuestionIds(page.sections[..i])
      {
        var section := page.sections[i];
        var j := 0;
        while j < |section|
          invariant 0 <= j <= |section|
          invariant qs == (set q | q in QuestionIds(page.sections[..i])) + set q | q in section[..j]
        {
          qs := qs + {section[j]};
          j := j + 1;
        }
        assert page.sections[..i + 1][..i] == page.sections[..i];
        assert section[..j] == section;
        i := i + 1;
      }
      assert page.sections[..i] == page.sections;
    }

    /** The `Promise.all` over the entries, run one entry after another. */
    method UpsertAll(sid: nat, questions: set<string>, entries: seq<(string, Unknown)>)
      modifies this
      ensures responses == ApplyEntries(old(responses), sid, questions, entries)
      ensures activeForm == old(activeForm) && pages == old(pages) && submissions == old(submissions) && nextId == old(nextId)
    {
      var i := 0;
      while i < |entries|
        invariant 0 <= i <= |entries|
        invariant responses == ApplyEntries(old(responses), sid, questions, entries[..i])
        invariant activeForm == old(activeForm) && pages == old(pages) && submissions == old(submissions) && nextId == old(nextId)
      {
        var (q, v) := entries[i];
        assert entries[..i + 1][..i] == entries[..i];
        if q in questions {
          responses := responses[(sid, q) := Upsert(Lookup(responses, (sid, q)), Classify(v))];
        }
        i := i + 1;
      }
      assert entries[..i] == entries;
    }

    /**
     * `saveResponses`: get or create the submission, fail if the page does not
     * exist (the submission stays created), upsert every entry whose question
     * is on the page, then record the page as current and the save time.
     */
    method SaveResponses(user: string, pageId: string, entries: seq<(string, Unknown)>, now: int) returns (r: Result<bool, string>)
      requires Valid()
      modifies this
      ensures Valid()
      ensures activeForm == old(activeForm) && pages == old(pages)
      ensures old(activeForm).None? ==> r == Err("No active form found") && submissions == old(submissions) && responses == old(responses)
      ensures old(activeForm).Some? && pageId !in pages ==> r == Err("Page not found") && responses == old(responses)
      ensures old(activeForm).None? ==> nextId == old(nextId)
      ensures old(activeForm).Some? ==>
        var key := (activeForm.value.id, user);
        var found := if key in old(submissions) then old(submissions)[key] else Submission(old(nextId), InProgress, None, None, None);
        && nextId == (if key in old(submissions) then old(nextId) else old(nextId) + 1)
        && submissions == old(submissions)[key := if pageId in pages then found.(currentPageId := Some(pageId), lastSavedAt := Some(now)) else found]
      ensures old(activeForm).Some? && pageId in pages ==>
        var s := submissions[(activeForm.value.id, user)];
        && r == Ok(true)
        && responses == ApplyEntries(old(responses), s.id, (set q | q in QuestionIds(pages[pageId].sections)), entries)
      ensures old(activeForm).Some? && pageId in pages && DistinctKeys(entries) ==>
        var sid := submissions[(activeForm.value.id, user)].id;
        forall i :: 0 <= i < |entries| && entries[i].0 in QuestionIds(pages[pageId].sections) ==>
          (sid, entries[i].0) in responses && responses[(sid, entries[i].0)] == Upsert(Lookup(old(responses), (sid, entries[i].0)), Classify(entries[i].1))
    {
      if activeForm.None? {
        r := Err("No active form found");
      } else {
        var key := (activeForm.value.id, user);
        var s := FindOrCreate(key.0, key.1);
        if pageId !in pages {
          r := Err("Page not found");
        } else {
          RecordPage(key, s, pageId, entries, now);
          r := Ok(true);
        }
      }
    }

    /** The part of `saveResponses` after the page is found: upsert the entries, then record the page and the time. */
    method RecordPage(key: SubmissionKey, s: Submission, pageId: string, entries: seq<(string, Unknown)>, now: int)
      requires Valid() && key in submissions && submissions[key] == s && pageId in pages
      modifies this
      ensures Valid()
      ensures activeForm == old(activeForm) && pages == old(pages) && nextId == old(nextId)
      ensures submissions == old(submissions)[key := s.(currentPageId := Some(pageId), lastSavedAt := Some(now))]
      ensures responses == ApplyEntries(old(responses), s.id, (set q | q in QuestionIds(pages[pageId].sections)), entries)
      ensures DistinctKeys(entries) ==>
        forall i :: 0 <= i < |entries| && entries[i].0 in QuestionIds(pages[pageId].sections) ==>
          (s.id, entries[i].0) in responses && responses[(s.id, entries[i].0)] == Upsert(Lookup(old(responses), (s.id, entries[i].0)), Classify(entries[i].1))
    {
      var questions := QuestionSet(pages[pageId]);
      UpsertAll(s.id, questions, entries);
      if DistinctKeys(entries) {
        forall i | 0 <= i < |entries| && entries[i].0 in QuestionIds(pages[pageId].sections)
          ensures (s.id, entries[i].0) in responses
          ensures responses[(s.id, entries[i].0)] == Upsert(Lookup(old(responses), (s.id, entries[i].0)), Classify(entries[i].1))
        {
          EachEntryUpserted(old(responses), s.id, questions, entries, i);
        }
      }
      submissions := submissions[key := s.(currentPageId := Some(pageId), lastSavedAt := Some(now))];
    }

    /**
     * `getPageResponses`: `{}` without a submission or without the page;
     * otherwise each of the page's questions that has a record, mapped to the
     * value read back from it.
     */
    method GetPageResponses(user: string, pageId: string) returns (r: map<string, Unknown>)
      ensures activeForm.None? || (activeForm.value.id, user) !in submissions || pageId !in pages ==> r == map[]
      ensures activeForm.Some? && (activeForm.value.id, user) in submissions && pageId in pages ==>
        r == PageResponses(responses, submissions[(activeForm.value.id, user)].id, QuestionIds(pages[pageId].sections))
    {
      if activeForm.None? || (activeForm.value.id, user) !in submissions || pageId !in pages {
        return map[];
      }
      var sid := submissions[(activeForm.value.id, user)].id;
      var ids := QuestionIds(pages[pageId].sections);
      r := map[];
      var i := 0;
      while i < |ids|
        invariant 0 <= i <= |ids|
        invariant r == PageResponses(responses, sid, ids[..i])
      {
        var q := ids[i];
        if (sid, q) in responses {
          r := r[q := ReadBack(responses[(sid, q)])];
        }
        assert ids[..i + 1] == ids[..i] + [q];
        i := i + 1;
      }
      assert ids[..i] == ids;
    }

    /** `submitForm`: errors without an active form or a submission; otherwise marks it submitted at `now`. */
    method SubmitForm(user: string, now: int) returns (r: Result<bool, string>)
      requires Valid()
      modifies this
      ensures Valid()
      ensures activeForm.None? ==> r == Err("No active form found") && submissions == old(submissions)
      ensures activeForm.Some? && (activeForm.value.id, user) !in old(submissions) ==> r == Err("Submission not found") && submissions == old(submissions)
      ensures activeForm.Some? && (activeForm.value.id, user) in old(submissions) ==>
        var key := (activeForm.value.id, user);
        r == Ok(true) && submissions == old(submissions)[key := old(submissions)[key].(status := Submitted, submittedAt := Some(now))]
      ensures activeForm == old(activeForm) && pages == old(pages) && responses == old(responses) && nextId == old(nextId)
    {
      if activeForm.None? {
        return Err("No active form found");
      }
      var key := (activeForm.value.id, user);
      if key !in submissions {
        return Err("Submission not found");
      }
      submissions := submissions[key := submissions[key].(status := Submitted, submittedAt := Some(now))];
      r := Ok(true);
    }

    /** `getProgress`: zeros without an active form; otherwise the rounded share of the form's questions that have a record. */
    function Progress(user: string): (r: ProgressReport)
      reads this
      ensures activeForm.None? ==> r == ProgressReport(0, 0, 0)
      ensures activeForm.Some? ==> r.total == TotalQuestions(activeForm.value.pages)
      ensures activeForm.Some? && (activeForm.value.id, user) !in submissions ==> r.answered == 0
      ensures activeForm.Some? && (activeForm.value.id, user) in submissions ==>
        r.answered == Answered(responses, submissions[(activeForm.value.id, user)].id)
      ensures r.percentage == Percentage(r.answered, r.total)
    {
      match activeForm
      case None => ProgressReport(0, 0, 0)
      case Some(form) =>
        var total := TotalQuestions(form.pages);
        var answered := if (form.id, user) in submissions then Answered(responses, submissions[(form.id, user)].id) else 0;
        ProgressReport(Percentage(answered, total), answered, total)
    }
  }

  /** Getting the submission twice creates it once: the second call returns the same submission and changes nothing. */
  method GetSubmissionTwice(form: Form, user: string) returns (first: Result<Submission, string>, second: Result<Submission, string>, count: nat)
    ensures first == second && first == Ok(Submission(0, InProgress, None, None, None))
    ensures count == 1
  {
    var store := new Store(Some(form), map[]);
    first := store.GetSubmission(user);
    second := store.GetSubmission(user);
    assert store.submissions == map[(form.id, user) := first.value];
    count := |store.submissions|;
  }

  /** A save to a page that does not exist fails, but leaves the submission created. */
  method SaveToMissingPage(form: Form, user: string) returns (r: Result<bool, string>, created: bool)
    ensures r == Err("Page not found") && created
  {
    var store := new Store(Some(form), map[]);
    r := store.SaveResponses(user, "missing", [("q1", Value(JStr("x")))], 0);
    created := (form.id, user) in store.submissions;
  }
}
