/** Working out the plan mode again from a cached interpretation: which content type it is about, which required fields
    are missing, and whether the teacher has to be asked. */
module PlanMode {
  import opened Wrappers
  import opened Decision

  datatype Audience = Audience(name: string, level: Option<string>)

  datatype Fields = Fields(
    targetAudience: Option<string>, outputType: Option<string>, subject: Option<string>, topic: Option<string>,
    learningObjectives: Option<seq<string>>, visualDensity: Option<string>,
    difficultyLevel: Option<string>, questionCount: Option<int>,
    others: map<string, string>)                // what is only ever carried over

  datatype MissingField = MissingField(
    fieldId: string, fieldLabel: string, priority: string, question: string, inputType: string)

  datatype Mode = Mode(
    active: bool, reason: Option<string>, detectedContentType: Option<string>, contentTypeConfidence: Option<real>)

  datatype Payload = Payload(
    teacherPrompt: string, title: string, summary: string, subjectName: Option<string>,
    targetAudience: Option<Audience>, preferredOutputType: string, candidateTypes: seq<string>,
    learningObjectives: seq<string>, visualDensity: Option<string>, confidence: real,
    interpretedFields: Option<Fields>,
    planMode: Mode, missingFields: seq<MissingField>, requiresClarification: bool)

  /** The wording of questions and reasons, and lowercasing, are parameters. */
  datatype Wording = Wording(
    lower: string -> string,
    question: (string, string, string, Option<string>) -> string,
    reason: (string, seq<string>) -> string)

  // ---------------------------------------------------------------- the content type

  const CONTENT_TYPES: seq<string> :=
    ["slide_presentasi", "rpp", "lembar_kerja", "penilaian", "silabus", "materi_pembelajaran"]

  const DEFAULT_CONTENT_TYPE := "materi_pembelajaran"

  function ContentTypeKeywords(contentType: string): seq<string> {
    match contentType
    case "slide_presentasi" => ["slide", "presentasi", "powerpoint", "pptx", "tayangan"]
    case "rpp" => ["rpp", "rencana pelaksanaan", "lesson plan", "perencanaan pembelajaran"]
    case "lembar_kerja" => ["lembar kerja", "worksheet", "latihan", "praktik"]
    case "penilaian" => ["penilaian", "asesmen", "assessment", "soal", "ujian", "tes"]
    case "silabus" => ["silabus", "syllabus", "kurikulum"]
    case "materi_pembelajaran" => ["materi", "modul", "handout", "bahan ajar", "pelajaran", "belajar"]
    case _ => []
  }

  function ContentTypeRequiredFields(contentType: string): seq<string> {
    match contentType
    case "slide_presentasi" => ["target_audience", "output_type"]
    case "rpp" => ["target_audience", "learning_objectives"]
    case "lembar_kerja" => ["target_audience", "difficulty_level"]
    case "penilaian" => ["target_audience", "difficulty_level", "question_count"]
    case "silabus" => ["target_audience"]
    case "materi_pembelajaran" => ["target_audience", "output_type"]
    case _ => ["target_audience"]
  }

  /** How many of the keywords the text contains. */
  function Hits(text: string, keywords: seq<string>): nat {
    if |keywords| == 0 then 0
    else Hits(text, keywords[..|keywords| - 1]) + if Contains(text, keywords[|keywords| - 1]) then 1 else 0
  }

  /** The places of the keywords that stand somewhere in the text. */
  function Found(text: string, keywords: seq<string>): set<nat> {
    set n: nat | n < |keywords| && Inside(text, keywords[n])
  }

  lemma {:induction false} HitsCount(text: string, keywords: seq<string>)
    ensures Hits(text, keywords) == |Found(text, keywords)|
  {
    if |keywords| > 0 {
      var n := |keywords| - 1;
      HitsCount(text, keywords[..n]);
      ContainsIff(text, keywords[n]);
      hide Inside, Contains;
      assert Found(text, keywords) == Found(text, keywords[..n]) + if Inside(text, keywords[n]) then {n} else {};
    }
  }

  function SearchText(w: Wording, p: Payload): string {
    w.lower(p.teacherPrompt) + " " + w.lower(p.title) + " " + w.lower(p.summary)
  }

  lemma StandsInFirst(a: string, b: string, t: string, k: nat)
    requires k + |t| <= |a|
    ensures StandsAt(a + b, t, k) <==> StandsAt(a, t, k)
  {
    assert (a + b)[k..k + |t|] == a[k..k + |t|];
  }

  lemma StandsInSecond(a: string, b: string, t: string, k: nat)
    ensures StandsAt(a + b, t, |a| + k) <==> StandsAt(b, t, k)
  {
    if k + |t| <= |b| { assert (a + b)[|a| + k..|a| + k + |t|] == b[k..k + |t|]; }
  }

  lemma InsideJoined(a: string, b: string, t: string)
    requires ' ' !in t
    ensures Inside(a + " " + b, t) <==> Inside(a, t) || Inside(b, t)
  {
    var first := a + " ";
    var joined := first + b;
    assert joined == a + (" " + b) && joined[|a|] == ' ';
    if k: nat :| k <= |a| && StandsAt(a, t, k) { StandsInFirst(a, " " + b, t, k); }
    if k: nat :| k <= |b| && StandsAt(b, t, k) { StandsInSecond(first, b, t, k); }
    if k: nat :| k <= |joined| && StandsAt(joined, t, k) {
      if k + |t| <= |a| {
        StandsInFirst(a, " " + b, t, k);
      } else if k > |a| {
        StandsInSecond(first, b, t, k - |first|);
      } else {
        Spanned(joined, t, k, |a|);
        assert false;
      }
    }
  }

  lemma Spanned(s: string, t: string, k: nat, n: nat)
    requires StandsAt(s, t, k) && k <= n < k + |t|
    ensures s[n] in t
  {
    assert s[k..k + |t|][n - k] == s[n];
  }

  /** A keyword of one word is looked for in the prompt, the title and the summary, and in nothing else. */
  lemma SearchesAllTexts(w: Wording, p: Payload, t: string)
    requires ' ' !in t
    ensures Inside(SearchText(w, p), t) <==>
      Inside(w.lower(p.teacherPrompt), t) || Inside(w.lower(p.title), t) || Inside(w.lower(p.summary), t)
  {
    InsideJoined(w.lower(p.teacherPrompt), w.lower(p.title), t);
    InsideJoined(w.lower(p.teacherPrompt) + " " + w.lower(p.title), w.lower(p.summary), t);
  }

  /** The first place with the highest score. */
  predicate FirstBest(scores: seq<nat>, k: nat) {
    && k < |scores|
    && (forall j | 0 <= j < |scores| :: scores[j] <= scores[k])
    && (forall j | 0 <= j < k :: scores[j] < scores[k])
  }

  function Insert(x: (string, nat), s: seq<(string, nat)>): seq<(string, nat)> {
    if |s| == 0 || x.1 >= s[0].1 then [x] + s else [s[0]] + Insert(x, s[1..])
  }

  /** A stable sort, highest score first. */
  function SortedByScore(s: seq<(string, nat)>): (r: seq<(string, nat)>)
    ensures |s| > 0 ==> |r| > 0
  {
    if |s| == 0 then [] else Insert(s[0], SortedByScore(s[1..]))
  }

  /** The first with the highest score comes out first. */
  lemma {:induction false} SortedHead(s: seq<(string, nat)>, k: nat)
    requires k < |s|
    requires (forall j | 0 <= j < |s| :: s[j].1 <= s[k].1) && (forall j | 0 <= j < k :: s[j].1 < s[k].1)
    ensures SortedByScore(s)[0] == s[k]
  {
    if k > 0 {
      SortedHead(s[1..], k - 1);
    } else if |s| > 1 {
      TopIsMember(s[1..]);
    }
  }

  lemma {:induction false} TopIsMember(s: seq<(string, nat)>)
    requires |s| > 0
    ensures SortedByScore(s)[0] in s
  {
    if |s| > 1 { TopIsMember(s[1..]); }
  }

  function ScoreOf(text: string, k: nat): nat
    requires k < |CONTENT_TYPES|
  {
    Hits(text, ContentTypeKeywords(CONTENT_TYPES[k]))
  }

  function Scores(text: string): seq<nat> {
    seq(|CONTENT_TYPES|, k requires 0 <= k < |CONTENT_TYPES| => ScoreOf(text, k))
  }

  function FirstBestFrom(scores: seq<nat>, k: nat, n: nat): (r: nat)
    requires k < n <= |scores| && FirstBest(scores[..n], k)
    ensures FirstBest(scores, r)
    decreases |scores| - n
  {
    if n == |scores| then
      assert scores[..n] == scores;
      k
    else
      var k' := if scores[n] > scores[k] then n else k;
      assert forall j | 0 <= j < n :: scores[..n][j] == scores[j] && scores[..n + 1][j] == scores[j];
      FirstBestFrom(scores, k', n + 1)
  }

  /** The content type: the first with the most keywords, or the default when nothing matches. */
  function DetectedType(text: string): string {
    var scores := Scores(text);
    var k := FirstBestFrom(scores, 0, 1);
    if scores[k] == 0 then DEFAULT_CONTENT_TYPE else CONTENT_TYPES[k]
  }

  /** Scoring every type in a loop, sorting, and taking the head. */
  method DetectContentType(w: Wording, p: Payload) returns (contentType: string)
    ensures contentType == DetectedType(SearchText(w, p))
  {
    var text := SearchText(w, p);
    var scores: seq<(string, nat)> := [];
    for k := 0 to |CONTENT_TYPES|
      invariant |scores| == k
      invariant forall j | 0 <= j < k :: scores[j] == (CONTENT_TYPES[j], Scores(text)[j])
    {
      scores := scores + [(CONTENT_TYPES[k], Hits(text, ContentTypeKeywords(CONTENT_TYPES[k])))];
    }
    SortedHead(scores, FirstBestFrom(Scores(text), 0, 1));
    var sorted := SortedByScore(scores);
    contentType := if sorted[0].1 == 0 then DEFAULT_CONTENT_TYPE else sorted[0].0;
  }

  lemma FirstBestUnique(scores: seq<nat>, j: nat, k: nat)
    requires FirstBest(scores, j) && FirstBest(scores, k)
    ensures j == k
  {
    assert scores[j] <= scores[k] <= scores[j];
  }

  /** The keywords of a content type that stand in the text. */
  function FoundFor(text: string, k: nat): set<nat>
    requires k < |CONTENT_TYPES|
  {
    Found(text, ContentTypeKeywords(CONTENT_TYPES[k]))
  }

  /** The detected type is the one with more keywords in the text than any before it and no fewer than any after it, and
      the default when no keyword of any type occurs. */
  lemma DetectedIsFirstBest(text: string, k: nat)
    requires k < |CONTENT_TYPES|
    requires forall j | 0 <= j < |CONTENT_TYPES| :: |FoundFor(text, j)| <= |FoundFor(text, k)|
    requires forall j | 0 <= j < k :: |FoundFor(text, j)| < |FoundFor(text, k)|
    ensures DetectedType(text) == if FoundFor(text, k) == {} then "materi_pembelajaran" else CONTENT_TYPES[k]
  {
    hide Hits, Found, ContentTypeKeywords;
    forall j | 0 <= j < |CONTENT_TYPES| ensures Scores(text)[j] == |FoundFor(text, j)| {
      HitsCount(text, ContentTypeKeywords(CONTENT_TYPES[j]));
    }
    FirstBestUnique(Scores(text), FirstBestFrom(Scores(text), 0, 1), k);
  }

  // ---------------------------------------------------------------- the missing fields

  predicate IsPresent(p: Payload, fieldId: string) {
    match fieldId
    case "target_audience" => p.targetAudience.Some?
    case "output_type" => p.preferredOutputType != "auto"
    case "learning_objectives" => |p.learningObjectives| > 0
    case "difficulty_level" => p.interpretedFields.Some? && p.interpretedFields.value.difficultyLevel.Some?
    case "question_count" => p.interpretedFields.Some? && p.interpretedFields.value.questionCount.Some?
    case _ => false
  }

  /** The required fields that are absent, in the order they are required. */
  function Absent(p: Payload, required: seq<string>): (r: seq<string>)
    ensures forall id :: id in r <==> id in required && !IsPresent(p, id)
  {
    if |required| == 0 then []
    else
      var last := required[|required| - 1];
      assert required == required[..|required| - 1] + [last];
      Absent(p, required[..|required| - 1]) + if IsPresent(p, last) then [] else [last]
  }

  /** They come in the order in which they are required. */
  lemma AbsentInOrder(p: Payload, required: seq<string>, id: string)
    ensures Absent(p, []) == []
    ensures Absent(p, required + [id]) == Absent(p, required) + if IsPresent(p, id) then [] else [id]
  {
    assert (required + [id])[..|required|] == required;
  }

  method FindMissingRequiredFields(p: Payload, required: seq<string>) returns (missing: seq<string>)
    ensures missing == Absent(p, required)
  {
    missing := [];
    for k := 0 to |required|
      invariant missing == Absent(p, required[..k])
    {
      assert required[..k + 1][..k] == required[..k];
      if !IsPresent(p, required[k]) {
        missing := missing + [required[k]];
      }
    }
    assert required[..|required|] == required;
  }

  function Label(fieldId: string): string {
    match fieldId
    case "target_audience" => "Jenjang/Kelas"
    case "output_type" => "Format Output"
    case "learning_objectives" => "Tujuan Pembelajaran"
    case "difficulty_level" => "Tingkat Kesulitan"
    case "question_count" => "Jumlah Soal"
    case _ => seq(|fieldId|, i requires 0 <= i < |fieldId| => if fieldId[i] == '_' then ' ' else fieldId[i])
  }

  function InputType(fieldId: string): string {
    match fieldId
    case "learning_objectives" => "textarea"
    case "question_count" => "number"
    case "target_audience" => "select"
    case "output_type" => "select"
    case "difficulty_level" => "select"
    case _ => "text"
  }

  predicate IsKnown(fieldId: string) {
    fieldId in ["target_audience", "output_type", "learning_objectives", "difficulty_level", "question_count"]
  }

  function ContextualMissingField(w: Wording, fieldId: string, p: Payload, contentType: string): MissingField {
    MissingField(fieldId, Label(fieldId), if IsKnown(fieldId) then "required" else "recommended",
                 w.question(fieldId, contentType, p.title, p.subjectName), InputType(fieldId))
  }

  function Asked(w: Wording, p: Payload, ids: seq<string>, contentType: string): seq<MissingField> {
    seq(|ids|, k requires 0 <= k < |ids| => ContextualMissingField(w, ids[k], p, contentType))
  }

  function Ids(missing: seq<MissingField>): seq<string> {
    seq(|missing|, k requires 0 <= k < |missing| => missing[k].fieldId)
  }

  function Labels(missing: seq<MissingField>): seq<string> {
    seq(|missing|, k requires 0 <= k < |missing| => missing[k].fieldLabel)
  }

  // ---------------------------------------------------------------- the interpreted fields

  const NO_FIELDS := Fields(None, None, None, None, None, None, None, None, map[])

  /** What can be read off the payload now; where it says nothing, what was there before. */
  function BuildInterpretedFields(p: Payload): Fields {
    var existing := p.interpretedFields.GetOr(NO_FIELDS);
    var audience := if p.targetAudience.None? then None else
      var a := p.targetAudience.value; Some(if a.level.Some? then a.name + " " + a.level.value else a.name);
    var output :=
      if p.preferredOutputType != "auto" then Some(p.preferredOutputType)
      else if |p.candidateTypes| > 0 then Some(p.candidateTypes[0])
      else None;
    var objectives := if |p.learningObjectives| == 0 then None else Some(p.learningObjectives);
    existing.(
      targetAudience := audience.Or(existing.targetAudience),
      outputType := output.Or(existing.outputType),
      subject := p.subjectName.Or(existing.subject),
      topic := Some(p.title),
      learningObjectives := objectives.Or(existing.learningObjectives),
      visualDensity := p.visualDensity.Or(existing.visualDensity))
  }

  /** What the payload says wins, field by field, over what was cached; where it says nothing the cached value stays; and
      what it never says is only carried over. */
  lemma PayloadWins(p: Payload, cached: Fields)
    ensures var alone := BuildInterpretedFields(p.(interpretedFields := None));
      var r := BuildInterpretedFields(p.(interpretedFields := Some(cached)));
      && (if alone.targetAudience.Some? then r.targetAudience == alone.targetAudience
          else p.targetAudience.None? && r.targetAudience == cached.targetAudience)
      && (if alone.outputType.Some? then r.outputType == alone.outputType
          else p.preferredOutputType == "auto" && p.candidateTypes == [] && r.outputType == cached.outputType)
      && (if alone.subject.Some? then r.subject == alone.subject == p.subjectName
          else p.subjectName.None? && r.subject == cached.subject)
      && (if alone.learningObjectives.Some? then r.learningObjectives == alone.learningObjectives == Some(p.learningObjectives)
          else p.learningObjectives == [] && r.learningObjectives == cached.learningObjectives)
      && (if alone.visualDensity.Some? then r.visualDensity == alone.visualDensity == p.visualDensity
          else p.visualDensity.None? && r.visualDensity == cached.visualDensity)
      && r.topic == alone.topic == Some(p.title)
      && (alone.difficultyLevel.None? && r.difficultyLevel == cached.difficultyLevel)
      && (alone.questionCount.None? && r.questionCount == cached.questionCount)
      && (alone.others == map[] && r.others == cached.others)
  {
  }

  /** The audience is named with its level, and the output type is the preferred one, or else the first candidate. */
  lemma PayloadSays(p: Payload)
    ensures var r := BuildInterpretedFields(p.(interpretedFields := None));
      && (p.targetAudience.Some? && p.targetAudience.value.level.None? ==>
            r.targetAudience == Some(p.targetAudience.value.name))
      && (p.targetAudience.Some? && p.targetAudience.value.level.Some? ==>
            r.targetAudience == Some(p.targetAudience.value.name + " " + p.targetAudience.value.level.value))
      && (r.targetAudience.Some? <==> p.targetAudience.Some?)
      && r.subject == p.subjectName && r.visualDensity == p.visualDensity
      && (if p.learningObjectives == [] then r.learningObjectives.None? else r.learningObjectives == Some(p.learningObjectives))
      && (p.preferredOutputType == "auto" && p.candidateTypes == [] ==> r.outputType.None?)
      && (p.preferredOutputType != "auto" ==> r.outputType == Some(p.preferredOutputType))
      && (p.preferredOutputType == "auto" && p.candidateTypes != [] ==> r.outputType == Some(p.candidateTypes[0]))
  {
  }

  // ---------------------------------------------------------------- the regeneration

  function Regenerated(w: Wording, p: Payload): Payload {
    var contentType := DetectedType(SearchText(w, p));
    var missing := Asked(w, p, Absent(p, ContentTypeRequiredFields(contentType)), contentType);
    var active := |missing| > 0;
    p.(interpretedFields := Some(BuildInterpretedFields(p)),
       planMode := Mode(active, if active then Some(w.reason(contentType, Labels(missing))) else None,
                        Some(contentType), Some(p.confidence)),
       missingFields := missing,
       requiresClarification := active)
  }

  /** The fields of the payload, assigned one after the other. */
  method Regenerate(w: Wording, payload: Payload) returns (p: Payload)
    ensures p == Regenerated(w, payload)
  {
    p := payload;
    var fields := BuildInterpretedFields(p);
    var contentType := DetectContentType(w, p);
    var required := ContentTypeRequiredFields(contentType);
    var ids := FindMissingRequiredFields(p, required);
    var missing := Asked(w, p, ids, contentType);
    var active := |missing| > 0;
    var reason := if active then Some(w.reason(contentType, Labels(missing))) else None;
    p := p.(planMode := Mode(active, reason, Some(contentType), Some(p.confidence)));
    p := p.(interpretedFields := Some(fields));
    p := p.(missingFields := missing);
    p := p.(requiresClarification := active);
  }

  /** Afterwards the three ways to say that the teacher has to be asked coincide, and the fields that are asked for are
      exactly the required ones that are absent, in order. */
  lemma AsksExactlyWhatIsMissing(w: Wording, p: Payload)
    ensures var r := Regenerated(w, p); var required := ContentTypeRequiredFields(DetectedType(SearchText(w, p)));
      && r.planMode.active == r.requiresClarification == (r.missingFields != []) == r.planMode.reason.Some?
      && Ids(r.missingFields) == Absent(p, required)
      && (r.planMode.active <==> exists id :: id in required && !IsPresent(p, id))
      && (r.planMode.active ==> r.planMode.reason == Some(w.reason(DetectedType(SearchText(w, p)), Labels(r.missingFields))))
      && r.planMode.detectedContentType == Some(DetectedType(SearchText(w, p)))
      && r.planMode.contentTypeConfidence == Some(p.confidence)
      && r.interpretedFields == Some(BuildInterpretedFields(p))
      && p.(interpretedFields := r.interpretedFields, planMode := r.planMode, missingFields := r.missingFields,
            requiresClarification := r.requiresClarification) == r
  {
    var r := Regenerated(w, p);
    var required := ContentTypeRequiredFields(DetectedType(SearchText(w, p)));
    assert Ids(r.missingFields) == Absent(p, required);
    if r.planMode.active {
      assert Absent(p, required)[0] in Absent(p, required);
    }
  }

  /** Each of the five known fields is asked for exactly when the content type requires it and the payload does not say it;
      such a question is marked required. */
  lemma AskedWhenMissing(w: Wording, p: Payload)
    ensures var contentType := DetectedType(SearchText(w, p));
      var required := ContentTypeRequiredFields(contentType);
      var ids := Ids(Regenerated(w, p).missingFields);
      && ("target_audience" in ids <==> "target_audience" in required && p.targetAudience.None?)
      && ("output_type" in ids <==> "output_type" in required && p.preferredOutputType == "auto")
      && ("learning_objectives" in ids <==> "learning_objectives" in required && p.learningObjectives == [])
      && ("difficulty_level" in ids <==>
            "difficulty_level" in required && p.interpretedFields.GetOr(NO_FIELDS).difficultyLevel.None?)
      && ("question_count" in ids <==>
            "question_count" in required && p.interpretedFields.GetOr(NO_FIELDS).questionCount.None?)
      && (forall m | m in Regenerated(w, p).missingFields :: m.priority == "required" && m.fieldId in required)
  {
    AsksExactlyWhatIsMissing(w, p);
    Presence(p);
    var contentType := DetectedType(SearchText(w, p));
    hide IsPresent, DetectedType, SearchText, ContentTypeRequiredFields;
    RequiredAreKnown(contentType);
    KnownAreRequired(w, p, Absent(p, ContentTypeRequiredFields(contentType)), contentType);
    hide Regenerated, Ids;
  }

  lemma Presence(p: Payload)
    ensures IsPresent(p, "target_audience") <==> p.targetAudience.Some?
    ensures IsPresent(p, "output_type") <==> p.preferredOutputType != "auto"
    ensures IsPresent(p, "learning_objectives") <==> p.learningObjectives != []
    ensures IsPresent(p, "difficulty_level") <==> p.interpretedFields.GetOr(NO_FIELDS).difficultyLevel.Some?
    ensures IsPresent(p, "question_count") <==> p.interpretedFields.GetOr(NO_FIELDS).questionCount.Some?
  {
  }

  lemma KnownAreRequired(w: Wording, p: Payload, ids: seq<string>, contentType: string)
    requires forall id | id in ids :: IsKnown(id)
    ensures forall m | m in Asked(w, p, ids, contentType) :: m.priority == "required" && m.fieldId in ids
  {
  }

  lemma RequiredAreKnown(contentType: string)
    ensures forall id | id in ContentTypeRequiredFields(contentType) :: IsKnown(id)
  {
  }

  /** What was cached about the plan mode has no influence at all. */
  lemma CachedPlanModeIsIgnored(w: Wording, p: Payload, mode: Mode, missing: seq<MissingField>, clarify: bool)
    ensures Regenerated(w, p.(planMode := mode, missingFields := missing, requiresClarification := clarify))
         == Regenerated(w, p)
  {
    var q := p.(planMode := mode, missingFields := missing, requiresClarification := clarify);
    var contentType := DetectedType(SearchText(w, p));
    assert SearchText(w, q) == SearchText(w, p);
    var required := ContentTypeRequiredFields(contentType);
    SamePresence(p, q, required);
    assert Asked(w, q, Absent(q, required), contentType) == Asked(w, p, Absent(p, required), contentType);
  }

  lemma {:induction false} SamePresence(p: Payload, q: Payload, required: seq<string>)
    requires forall id :: IsPresent(p, id) <==> IsPresent(q, id)
    ensures Absent(p, required) == Absent(q, required)
  {
    if |required| > 0 { SamePresence(p, q, required[..|required| - 1]); }
  }

  /** Regenerating what was regenerated changes nothing. */
  lemma RegenerationIsIdempotent(w: Wording, p: Payload)
    ensures Regenerated(w, Regenerated(w, p)) == Regenerated(w, p)
  {
    var q := Regenerated(w, p);
    var contentType := DetectedType(SearchText(w, p));
    assert SearchText(w, q) == SearchText(w, p);
    var required := ContentTypeRequiredFields(contentType);
    SamePresence(p, q, required);
    assert Asked(w, q, Absent(q, required), contentType) == Asked(w, p, Absent(p, required), contentType);
    assert BuildInterpretedFields(q) == BuildInterpretedFields(p);
  }
}
