/** Building the generation spec that the renderer gets: sections from the draft or from the blueprint, normalised to what
    its strict model accepts. */
module GenerationSpec {
  import opened Wrappers
  import opened Fingerprint

  /** A block of a draft section, or a bullet of a blueprint section, which has no kind; fields of the wrong type read as
      missing. The emphasis of a blueprint section is its estimated length. */
  datatype BlockIn = BlockIn(kind: Option<string>, content: Option<string>)

  datatype SectionIn = SectionIn(
    title: Option<string>, purpose: Option<string>, emphasis: Option<string>, blocks: Option<seq<BlockIn>>)

  datatype Assessment = Assessment(title: Option<string>, kind: Option<string>, instructions: Option<string>)

  datatype Asset = Asset(kind: Option<string>, description: Option<string>)

  /** A learning objective: a text, an object, of which the first value is taken if it is a text, or any other value, which
      is printed. */
  datatype Objective = Text(text: string) | Record(first: Option<string>) | Printed(json: string)

  /** The characteristics that were asked for. The tone stands in one place or in another. */
  datatype Style = Style(
    tone: Option<string>, constraintTone: Option<string>, level: Option<string>, density: Option<string>,
    formats: Option<seq<string>>)

  /** An interpretation. */
  datatype Input = Input(
    teacherPrompt: Option<string>, title: Option<string>, summary: Option<string>, deliverySummary: Option<string>,
    language: Option<string>, schemaVersion: Option<string>,
    blueprint: Option<seq<SectionIn>>, assessments: Option<seq<Assessment>>,
    objectives: Option<seq<Objective>>, assets: Option<seq<Asset>>, style: Style,
    pageCount: Option<int>, slideCount: Option<int>)

  /** A draft may come without a list of sections. */
  datatype Draft = Draft(sections: Option<seq<SectionIn>>)

  datatype Block = Block(kind: string, content: string)

  datatype Section = Section(title: string, purpose: string, blocks: seq<Block>, emphasis: string)

  datatype AssessmentOut = AssessmentOut(title: string, kind: string, instructions: string)

  datatype AssetOut = AssetOut(kind: string, description: string)

  datatype Spec = Spec(
    exportFormat: string, documentMode: string, unitType: string, sourceSchemaVersion: string, language: string,
    title: string, summary: string, deliverySummary: string, objectives: seq<string>,
    tone: string, audienceLevel: string, visualDensity: string, formatPreferences: seq<string>,
    sections: seq<Section>, sectionCount: int, assessments: seq<AssessmentOut>, assessmentBlockCount: int,
    assets: seq<AssetOut>, assetCount: int,
    totalUnits: int, sectionUnits: int, closingUnit: bool, requestedUnits: Option<int>)

  // ---------------------------------------------------------------- the normalisers

  const EMPHASES := {"short", "medium", "long"}
  const BLOCK_TYPES := {"paragraph", "bullet", "checklist", "note"}
  const ASSESSMENT_TYPES := {"assessment", "activity", "reflection", "quiz", "assignment"}
  const ASSET_TYPES := {"text", "image", "table", "chart", "diagram", "reference"}

  function NormalizeEmphasis(raw: Option<string>): string {
    var e := raw.GetOr("medium");
    if e == "short" || e == "brief" || e == "concise" || e == "minimal" then "short"
    else if e == "long" || e == "long_text" || e == "detailed" || e == "extensive" || e == "comprehensive" then "long"
    else "medium"
  }

  function NormalizeBlockType(u: Unicode, raw: string): string {
    var t := Lower(u, raw);
    if t == "paragraph" || t == "text" || t == "p" then "paragraph"
    else if t == "bullet" || t == "bullets" || t == "list" || t == "ul" then "bullet"
    else if t == "checklist" || t == "check" || t == "checkbox" then "checklist"
    else if t == "note" || t == "callout" || t == "info" then "note"
    else "paragraph"
  }

  function NormalizeAssessmentType(u: Unicode, raw: string): string {
    var t := Lower(u, raw);
    if t == "assessment" || t == "test" || t == "exam" || t == "evaluation" then "assessment"
    else if t == "activity" || t == "exercise" || t == "practice" || t == "task" then "activity"
    else if t == "reflection" || t == "reflect" || t == "thinking" then "reflection"
    else if t == "quiz" || t == "question" || t == "mcq" then "quiz"
    else if t == "assignment" || t == "homework" || t == "worksheet" then "assignment"
    else "activity"
  }

  /** Which words stand for an emphasis. */
  lemma EmphasisWords(raw: Option<string>)
    ensures NormalizeEmphasis(raw) in EMPHASES
    ensures NormalizeEmphasis(raw) == "short" <==> raw.Some? && raw.value in {"short", "brief", "concise", "minimal"}
    ensures NormalizeEmphasis(raw) == "long" <==>
      raw.Some? && raw.value in {"long", "long_text", "detailed", "extensive", "comprehensive"}
  {
    WordsDiffer();
  }

  /** Which words stand for a block type; every other one for a paragraph. */
  lemma BlockTypeWords(u: Unicode, raw: string)
    ensures NormalizeBlockType(u, raw) in BLOCK_TYPES
    ensures NormalizeBlockType(u, raw) == "bullet" <==> Lower(u, raw) in {"bullet", "bullets", "list", "ul"}
    ensures NormalizeBlockType(u, raw) == "checklist" <==> Lower(u, raw) in {"checklist", "check", "checkbox"}
    ensures NormalizeBlockType(u, raw) == "note" <==> Lower(u, raw) in {"note", "callout", "info"}
  {
    WordsDiffer();
  }

  /** Which words stand for a type of assessment; every other one for an activity. */
  lemma AssessmentTypeWords(u: Unicode, raw: string)
    ensures NormalizeAssessmentType(u, raw) in ASSESSMENT_TYPES
    ensures NormalizeAssessmentType(u, raw) == "assessment" <==> Lower(u, raw) in {"assessment", "test", "exam", "evaluation"}
    ensures NormalizeAssessmentType(u, raw) == "reflection" <==> Lower(u, raw) in {"reflection", "reflect", "thinking"}
    ensures NormalizeAssessmentType(u, raw) == "quiz" <==> Lower(u, raw) in {"quiz", "question", "mcq"}
    ensures NormalizeAssessmentType(u, raw) == "assignment" <==> Lower(u, raw) in {"assignment", "homework", "worksheet"}
  {
    WordsDiffer();
  }

  lemma WordsDiffer()
    ensures "short" != "long" && |"medium"| == 6
    ensures |"paragraph"| == 9 && |"bullet"| == 6 && |"checklist"| == 9 && |"note"| == 4 && "paragraph"[0] != "checklist"[0]
    ensures |"assessment"| == 10 && |"activity"| == 8 && |"reflection"| == 10 && |"quiz"| == 4 && |"assignment"| == 10
    ensures "assessment"[0] == 'a' && "reflection"[0] == 'r' && "assignment"[3] == 'i' && "assessment"[3] == 'e'
  {
    assert "short"[0] == 's' && "long"[0] == 'l' && "paragraph"[0] == 'p' && "checklist"[0] == 'c';
  }

  function TruncateField(u: Unicode, s: string, max: nat): string {
    var trimmed := Trim(u, s);
    if |trimmed| <= max then trimmed
    else trimmed[..if max < 3 then 0 else max - 3] + "..."
  }

  /** A truncated field is within its bound, keeps what fits, and truncating it again changes nothing. */
  lemma TruncateFieldBounded(u: Unicode, s: string, max: nat)
    requires max >= 3 && !u.space('.')
    ensures |TruncateField(u, s, max)| <= max
    ensures |Trim(u, s)| <= max ==> TruncateField(u, s, max) == Trim(u, s)
    ensures |Trim(u, s)| > max ==> |TruncateField(u, s, max)| == max && Trim(u, s)[..max - 3] <= TruncateField(u, s, max)
    ensures TruncateField(u, TruncateField(u, s, max), max) == TruncateField(u, s, max)
  {
    var t := Trim(u, s);
    TrimStartKeepsWords(u, s);
    TrimEndKeepsWords(u, TrimStart(u, s));
    var r := TruncateField(u, s, max);
    if |t| > max {
      assert r[max - 1] == '.';
      assert r[0] == (if max == 3 then '.' else t[0]);
    }
    assert |r| > 0 ==> !u.space(r[0]) && !u.space(r[|r| - 1]);
    assert Trim(u, r) == r;
  }

  // ---------------------------------------------------------------- the sections

  /** The blocks with some content, normalised. */
  function Normalized(u: Unicode, drafted: bool, blocks: seq<BlockIn>): (r: seq<Block>)
    ensures forall b | b in r :: b.kind in BLOCK_TYPES
  {
    if |blocks| == 0 then []
    else
      var b := blocks[|blocks| - 1];
      var content := b.content.GetOr("");
      Normalized(u, drafted, blocks[..|blocks| - 1])
        + if content == "" then []
          else [Block(if drafted then NormalizeBlockType(u, b.kind.GetOr("paragraph")) else "bullet",
                      TruncateField(u, content, 1000))]
  }

  /** The blocks come out one after the other, those without content left out, each with its type and its content. */
  lemma {:induction false} BlocksInOrder(u: Unicode, drafted: bool, before: seq<BlockIn>, after: seq<BlockIn>, b: BlockIn)
    ensures Normalized(u, drafted, before + after) == Normalized(u, drafted, before) + Normalized(u, drafted, after)
    ensures b.content.GetOr("") == "" ==> Normalized(u, drafted, [b]) == []
    ensures b.content.GetOr("") != "" ==>
      Normalized(u, drafted, [b])
      == [Block(if drafted then NormalizeBlockType(u, b.kind.GetOr("paragraph")) else "bullet",
                TruncateField(u, b.content.value, 1000))]
  {
    assert [b][..0] == [];
    if |after| == 0 {
      assert before + after == before;
    } else {
      BlocksInOrder(u, drafted, before, after[..|after| - 1], b);
      assert (before + after)[..|before + after| - 1] == before + after[..|after| - 1];
    }
  }

  function BuildSection(u: Unicode, drafted: bool, s: SectionIn): Section {
    var purpose := s.purpose.GetOr("Section content");
    var blocks := Normalized(u, drafted, s.blocks.GetOr([]));
    Section(TruncateField(u, s.title.GetOr("Untitled Section"), 200),
            TruncateField(u, purpose, 500),
            if blocks == [] then [Block("paragraph", purpose)] else blocks,
            NormalizeEmphasis(s.emphasis))
  }

  function DefaultSection(teacherPrompt: string): Section {
    var title := if |teacherPrompt| > 200 then teacherPrompt[..197] + "..." else teacherPrompt;
    Section(title, "Deliver the requested learning material.", [Block("paragraph", teacherPrompt)], "medium")
  }

  function BuildSections(u: Unicode, drafted: bool, teacherPrompt: string, input: Option<seq<SectionIn>>): seq<Section> {
    if input.None? || input.value == [] then [DefaultSection(teacherPrompt)]
    else seq(|input.value|, k requires 0 <= k < |input.value| => BuildSection(u, drafted, input.value[k]))
  }

  function NormalizedAssessments(u: Unicode, blocks: seq<Assessment>): (r: seq<AssessmentOut>)
    ensures forall a | a in r :: a.kind in ASSESSMENT_TYPES && a.instructions != ""
  {
    if |blocks| == 0 then []
    else
      var a := blocks[|blocks| - 1];
      NormalizedAssessments(u, blocks[..|blocks| - 1])
        + if Instructions(a) == "" then []
          else [AssessmentOut(a.title.GetOr("Activity"), NormalizeAssessmentType(u, a.kind.GetOr("activity")), Instructions(a))]
  }

  /** The assessments with instructions come out one after the other, with their title, type and instructions. */
  lemma {:induction false} AssessmentsInOrder(u: Unicode, before: seq<Assessment>, after: seq<Assessment>, a: Assessment)
    ensures NormalizedAssessments(u, before + after) == NormalizedAssessments(u, before) + NormalizedAssessments(u, after)
    ensures a.instructions == Some("") ==> NormalizedAssessments(u, [a]) == []
    ensures a.instructions.Some? && a.instructions != Some("") && a.title.Some? && a.kind.Some? ==>
      NormalizedAssessments(u, [a])
      == [AssessmentOut(a.title.value, NormalizeAssessmentType(u, a.kind.value), a.instructions.value)]
  {
    assert [a][..0] == [];
    if |after| == 0 {
      assert before + after == before;
    } else {
      AssessmentsInOrder(u, before, after[..|after| - 1], a);
      assert (before + after)[..|before + after| - 1] == before + after[..|after| - 1];
    }
  }

  function Instructions(a: Assessment): string {
    a.instructions.GetOr("Complete the activity.")
  }

  function NormalizeAsset(a: Asset): AssetOut {
    var kind := a.kind.GetOr("text");
    AssetOut(if kind in ASSET_TYPES then kind else "text", a.description.GetOr("Asset"))
  }

  function NormalizedAssets(assets: seq<Asset>): seq<AssetOut> {
    seq(|assets|, k requires 0 <= k < |assets| => NormalizeAsset(assets[k]))
  }

  function ObjectiveText(o: Objective): string {
    match o
    case Text(text) => text
    case Record(first) => first.GetOr("Objective")
    case Printed(json) => json
  }

  function ObjectiveTexts(objectives: seq<Objective>): seq<string> {
    seq(|objectives|, k requires 0 <= k < |objectives| => ObjectiveText(objectives[k]))
  }

  function Formats(style: Style, exportFormat: string): seq<string> {
    if style.formats.GetOr([]) == [] then [exportFormat] else style.formats.value
  }

  function Tone(style: Style): string {
    style.tone.GetOr(style.constraintTone.GetOr("clear_and_structured"))
  }

  function Prompt(i: Input): string {
    i.teacherPrompt.GetOr("Learning material")
  }

  /** The sections that a spec is built from, if there are any. */
  function Given(i: Input, draft: Option<Draft>): Option<seq<SectionIn>> {
    if draft.Some? then draft.value.sections else i.blueprint
  }

  function BuildSpec(u: Unicode, i: Input, resolvedOutputType: string, draft: Option<Draft>): Spec {
    var slides := resolvedOutputType == "pptx";
    var prompt := Prompt(i);
    var sections := BuildSections(u, draft.Some?, prompt, Given(i, draft));
    var assessments := NormalizedAssessments(u, i.assessments.GetOr([]));
    var assets := NormalizedAssets(i.assets.GetOr([]));
    var target := if slides then i.slideCount else i.pageCount;
    Spec(resolvedOutputType, if slides then "slide_deck" else "document", if slides then "slide" else "page",
         i.schemaVersion.GetOr("media_prompt_understanding.v1"), i.language.GetOr("id"),
         TruncateField(u, i.title.GetOr(prompt), 200), TruncateField(u, i.summary.GetOr(prompt), 1000),
         TruncateField(u, i.deliverySummary.GetOr(prompt), 1000), ObjectiveTexts(i.objectives.GetOr([])),
         TruncateField(u, Tone(i.style), 100), TruncateField(u, i.style.level.GetOr("general"), 100),
         i.style.density.GetOr("medium"), Formats(i.style, resolvedOutputType),
         sections, |sections|, assessments, |assessments|, assets, |assets|,
         target.GetOr(1 + |sections| + if assessments == [] then 0 else 1), |sections|, assessments != [], target)
  }

  // ---------------------------------------------------------------- the shape

  predicate WellShaped(s: Section) {
    && |s.title| <= 200 && |s.purpose| <= 500 && s.emphasis in EMPHASES
    && |s.blocks| > 0 && forall b | b in s.blocks :: b.kind in BLOCK_TYPES
  }

  /** A section's title and purpose are the given ones, trimmed, where they fit, its emphasis is the given one, and its blocks
      are the given ones with content, or else one paragraph with the purpose. */
  lemma SectionShape(u: Unicode, drafted: bool, s: SectionIn)
    requires !u.space('.')
    ensures WellShaped(BuildSection(u, drafted, s))
    ensures s.title.Some? && |Trim(u, s.title.value)| <= 200 ==> BuildSection(u, drafted, s).title == Trim(u, s.title.value)
    ensures s.purpose.Some? && |Trim(u, s.purpose.value)| <= 500 ==> BuildSection(u, drafted, s).purpose == Trim(u, s.purpose.value)
    ensures BuildSection(u, drafted, s).emphasis == NormalizeEmphasis(s.emphasis)
    ensures BuildSection(u, drafted, s).blocks ==
      if Normalized(u, drafted, s.blocks.GetOr([])) != [] then Normalized(u, drafted, s.blocks.GetOr([]))
      else [Block("paragraph", s.purpose.GetOr("Section content"))]
  {
    TruncateFieldBounded(u, s.title.GetOr("Untitled Section"), 200);
    TruncateFieldBounded(u, s.purpose.GetOr("Section content"), 500);
  }

  /** The sections of a spec are the built ones of those that went in, one each. */
  lemma SectionsBuilt(u: Unicode, drafted: bool, prompt: string, given: Option<seq<SectionIn>>)
    requires given.Some? && given.value != []
    ensures var sections := BuildSections(u, drafted, prompt, given);
      && |sections| == |given.value|
      && (forall k | 0 <= k < |sections| :: sections[k] == BuildSection(u, drafted, given.value[k]))
      && (forall s | s in given.value :: BuildSection(u, drafted, s) in sections)
      && (forall t | t in sections :: exists s :: s in given.value && t == BuildSection(u, drafted, s))
  {
    var sections := BuildSections(u, drafted, prompt, given);
    forall s | s in given.value ensures BuildSection(u, drafted, s) in sections {
      var k :| 0 <= k < |given.value| && given.value[k] == s;
      assert sections[k] == BuildSection(u, drafted, s);
    }
  }

  lemma SectionsShape(u: Unicode, drafted: bool, prompt: string, given: Option<seq<SectionIn>>)
    requires !u.space('.')
    ensures |BuildSections(u, drafted, prompt, given)| > 0
    ensures forall t | t in BuildSections(u, drafted, prompt, given) :: WellShaped(t)
  {
    if given.Some? && given.value != [] {
      hide WellShaped, BuildSection, BuildSections;
      SectionsBuilt(u, drafted, prompt, given);
      forall s | s in given.value ensures WellShaped(BuildSection(u, drafted, s)) { SectionShape(u, drafted, s); }
    }
  }

  /** For every interpretation and draft: there is a section, every section has a block, there are only allowed kinds, what
      is bounded is bounded, one section comes out for each that went in, there is a format preference, and the counts and
      the default number of units add up. */
  lemma SpecShape(u: Unicode, i: Input, resolvedOutputType: string, draft: Option<Draft>)
    requires !u.space('.')
    ensures var spec := BuildSpec(u, i, resolvedOutputType, draft);
      var given := Given(i, draft);
      && |spec.sections| > 0 && (forall s | s in spec.sections :: WellShaped(s))
      && |spec.title| <= 200 && |spec.summary| <= 1000 && |spec.deliverySummary| <= 1000
      && |spec.tone| <= 100 && |spec.audienceLevel| <= 100 && |spec.formatPreferences| > 0
      && (if resolvedOutputType == "pptx" then spec.documentMode == "slide_deck" && spec.unitType == "slide"
          else spec.documentMode == "document" && spec.unitType == "page")
      && (given.Some? && given.value != [] ==>
            |spec.sections| == |given.value|
            && forall k | 0 <= k < |given.value| :: spec.sections[k] == BuildSection(u, draft.Some?, given.value[k]))
      && spec.sectionCount == spec.sectionUnits == |spec.sections|
      && (spec.closingUnit <==> spec.assessmentBlockCount > 0)
      && spec.requestedUnits == (if resolvedOutputType == "pptx" then i.slideCount else i.pageCount)
      && (spec.requestedUnits.Some? ==> spec.totalUnits == spec.requestedUnits.value)
      && (spec.requestedUnits.None? ==> spec.totalUnits == 1 + spec.sectionUnits + if spec.closingUnit then 1 else 0)
      && spec.assessmentBlockCount == |spec.assessments| && spec.assetCount == |spec.assets| == |i.assets.GetOr([])|
      && (forall a | a in spec.assessments :: a.kind in ASSESSMENT_TYPES && a.instructions != "")
      && (forall a | a in spec.assets :: a.kind in ASSET_TYPES)
  {
    hide TruncateField, BuildSections, NormalizedAssessments, WellShaped;
    BoundedFields(u, i, resolvedOutputType, draft);
    SectionsShape(u, draft.Some?, Prompt(i), Given(i, draft));
    if Given(i, draft).Some? && Given(i, draft).value != [] {
      SectionsBuilt(u, draft.Some?, Prompt(i), Given(i, draft));
    }
  }

  lemma BoundedFields(u: Unicode, i: Input, resolvedOutputType: string, draft: Option<Draft>)
    requires !u.space('.')
    ensures var spec := BuildSpec(u, i, resolvedOutputType, draft);
      && |spec.title| <= 200 && |spec.summary| <= 1000 && |spec.deliverySummary| <= 1000
      && |spec.tone| <= 100 && |spec.audienceLevel| <= 100
  {
    hide TruncateField, BuildSections, NormalizedAssessments;
    TruncateFieldBounded(u, i.title.GetOr(Prompt(i)), 200);
    TruncateFieldBounded(u, i.summary.GetOr(Prompt(i)), 1000);
    TruncateFieldBounded(u, i.deliverySummary.GetOr(Prompt(i)), 1000);
    TruncateFieldBounded(u, Tone(i.style), 100);
    TruncateFieldBounded(u, i.style.level.GetOr("general"), 100);
  }

  /** What is given and fits goes into the spec as it is, but for whitespace around it; the prompt stands in for a missing
      title or summary. */
  lemma SpecKeepsWhatFits(u: Unicode, i: Input, resolvedOutputType: string, draft: Option<Draft>)
    requires !u.space('.')
    ensures var spec := BuildSpec(u, i, resolvedOutputType, draft);
      && (|Trim(u, i.title.GetOr(Prompt(i)))| <= 200 ==> spec.title == Trim(u, i.title.GetOr(Prompt(i))))
      && (|Trim(u, i.summary.GetOr(Prompt(i)))| <= 1000 ==> spec.summary == Trim(u, i.summary.GetOr(Prompt(i))))
      && (|Trim(u, i.deliverySummary.GetOr(Prompt(i)))| <= 1000 ==>
            spec.deliverySummary == Trim(u, i.deliverySummary.GetOr(Prompt(i))))
      && (i.style.tone.Some? && |Trim(u, i.style.tone.value)| <= 100 ==> spec.tone == Trim(u, i.style.tone.value))
      && (i.style.level.Some? && |Trim(u, i.style.level.value)| <= 100 ==> spec.audienceLevel == Trim(u, i.style.level.value))
      && (i.language.Some? ==> spec.language == i.language.value)
      && (i.style.density.Some? ==> spec.visualDensity == i.style.density.value)
      && (i.schemaVersion.Some? ==> spec.sourceSchemaVersion == i.schemaVersion.value)
      && spec.formatPreferences == (if i.style.formats.GetOr([]) == [] then [resolvedOutputType] else i.style.formats.value)
  {
    hide TruncateField, BuildSections, NormalizedAssessments;
    TruncateFieldBounded(u, i.title.GetOr(Prompt(i)), 200);
    TruncateFieldBounded(u, i.summary.GetOr(Prompt(i)), 1000);
    TruncateFieldBounded(u, i.deliverySummary.GetOr(Prompt(i)), 1000);
    TruncateFieldBounded(u, Tone(i.style), 100);
    TruncateFieldBounded(u, i.style.level.GetOr("general"), 100);
  }

  /** Objectives and assets come out one for one. */
  lemma SpecKeepsLists(u: Unicode, i: Input, resolvedOutputType: string, draft: Option<Draft>)
    ensures var spec, objectives := BuildSpec(u, i, resolvedOutputType, draft), i.objectives.GetOr([]);
      && |spec.objectives| == |objectives|
      && forall k | 0 <= k < |spec.objectives| && k < |objectives| && objectives[k].Text? ::
           spec.objectives[k] == objectives[k].text
    ensures var spec, assets := BuildSpec(u, i, resolvedOutputType, draft), i.assets.GetOr([]);
      && |spec.assets| == |assets|
      && (forall k | 0 <= k < |spec.assets| && k < |assets| && assets[k].description.Some? ::
            spec.assets[k].description == assets[k].description.value)
      && (forall k | 0 <= k < |spec.assets| && k < |assets| && assets[k].kind.Some? && assets[k].kind.value in ASSET_TYPES ::
            spec.assets[k].kind == assets[k].kind.value)
  {
    hide TruncateField, BuildSections, NormalizedAssessments;
  }

  /** Without sections the prompt stands in for all of them. */
  lemma PromptAsSection(u: Unicode, i: Input, resolvedOutputType: string, draft: Option<Draft>)
    requires Given(i, draft).GetOr([]) == []
    ensures var spec := BuildSpec(u, i, resolvedOutputType, draft);
      && |spec.sections| == 1 && spec.sections[0].blocks == [Block("paragraph", Prompt(i))]
      && (|Prompt(i)| <= 200 ==> spec.sections[0].title == Prompt(i))
      && (|Prompt(i)| > 200 ==> spec.sections[0].title == Prompt(i)[..197] + "...")
  {
    hide TruncateField, NormalizedAssessments;
  }

  // ---------------------------------------------------------------- what the shape does not give

  /** Some block of the section has content, before it is trimmed. */
  predicate HasContent(s: SectionIn) {
    exists b :: b in s.blocks.GetOr([]) && b.content.GetOr("") != ""
  }

  predicate ContentsBounded(sections: seq<Section>) {
    forall s, b | s in sections && b in s.blocks :: |b.content| <= 1000
  }

  /** Every block content of a spec stays within the 1000 characters that the renderer accepts exactly when every section
      that went in has some content or a purpose that short, or, when none went in, the prompt is that short: the paragraph
      that stands in for missing blocks, and the one of the default section, are not truncated. */
  lemma ContentBoundedIff(u: Unicode, i: Input, resolvedOutputType: string, draft: Option<Draft>)
    requires !u.space('.')
    ensures ContentsBounded(BuildSpec(u, i, resolvedOutputType, draft).sections) <==>
      if Given(i, draft).None? || Given(i, draft).value == [] then |Prompt(i)| <= 1000
      else forall s | s in Given(i, draft).value :: HasContent(s) || |s.purpose.GetOr("Section content")| <= 1000
  {
    var given := Given(i, draft);
    var sections := BuildSections(u, draft.Some?, Prompt(i), given);
    assert sections == BuildSpec(u, i, resolvedOutputType, draft).sections;
    if given.Some? && given.value != [] {
      SectionsBuilt(u, draft.Some?, Prompt(i), given);
      forall s | s in given.value
        ensures (forall b | b in BuildSection(u, draft.Some?, s).blocks :: |b.content| <= 1000)
           <==> HasContent(s) || |s.purpose.GetOr("Section content")| <= 1000
      {
        SectionContents(u, draft.Some?, s);
      }
    } else {
      assert sections == [DefaultSection(Prompt(i))];
      assert DefaultSection(Prompt(i)).blocks[0] in DefaultSection(Prompt(i)).blocks;
    }
  }

  lemma SectionContents(u: Unicode, drafted: bool, s: SectionIn)
    requires !u.space('.')
    ensures (forall b | b in BuildSection(u, drafted, s).blocks :: |b.content| <= 1000)
       <==> HasContent(s) || |s.purpose.GetOr("Section content")| <= 1000
  {
    NormalizedContents(u, drafted, s.blocks.GetOr([]));
    var purpose := Block("paragraph", s.purpose.GetOr("Section content"));
    assert !HasContent(s) ==> BuildSection(u, drafted, s).blocks == [purpose] && purpose in [purpose];
  }

  lemma {:induction false} NormalizedContents(u: Unicode, drafted: bool, blocks: seq<BlockIn>)
    requires !u.space('.')
    ensures forall b | b in Normalized(u, drafted, blocks) :: |b.content| <= 1000
    ensures Normalized(u, drafted, blocks) != [] <==> exists b :: b in blocks && b.content.GetOr("") != ""
  {
    if |blocks| > 0 {
      var before, b := blocks[..|blocks| - 1], blocks[|blocks| - 1];
      assert blocks == before + [b];
      NormalizedContents(u, drafted, before);
      TruncateFieldBounded(u, b.content.GetOr(""), 1000);
    }
  }

  /** A text with more than whitespace in it. */
  predicate HasText(u: Unicode, s: string) {
    exists c :: c in s && !u.space(c)
  }

  /** A section without an empty field. */
  predicate NothingEmpty(s: Section) {
    s.title != "" && s.purpose != "" && s.emphasis != "" && forall b | b in s.blocks :: b.kind != "" && b.content != ""
  }

  /** Every content that is not dropped has text in it. */
  predicate BlocksHaveText(u: Unicode, s: SectionIn) {
    forall b | b in s.blocks.GetOr([]) && b.content.GetOr("") != "" :: HasText(u, b.content.value)
  }

  predicate SectionHasText(u: Unicode, s: SectionIn) {
    && HasText(u, s.title.GetOr("Untitled Section")) && HasText(u, s.purpose.GetOr("Section content"))
    && BlocksHaveText(u, s)
  }

  /** No text of a spec is empty, whatever list it stands in. */
  predicate Filled(spec: Spec) {
    && spec.exportFormat != "" && spec.documentMode != "" && spec.unitType != ""
    && spec.sourceSchemaVersion != "" && spec.language != ""
    && spec.title != "" && spec.summary != "" && spec.deliverySummary != ""
    && spec.tone != "" && spec.audienceLevel != "" && spec.visualDensity != ""
    && "" !in spec.objectives && "" !in spec.formatPreferences
    && (forall s | s in spec.sections :: NothingEmpty(s))
    && (forall a | a in spec.assessments :: a.title != "" && a.kind != "" && a.instructions != "")
    && (forall a | a in spec.assets :: a.kind != "" && a.description != "")
  }

  /** The fields that are trimmed, or take the prompt's place. */
  predicate TrimmedHaveText(u: Unicode, i: Input) {
    && HasText(u, i.title.GetOr(Prompt(i))) && HasText(u, i.summary.GetOr(Prompt(i)))
    && HasText(u, i.deliverySummary.GetOr(Prompt(i)))
    && HasText(u, Tone(i.style)) && HasText(u, i.style.level.GetOr("general"))
  }

  /** The fields that are passed on as they are. */
  predicate PassedOnFilled(i: Input) {
    && i.schemaVersion != Some("") && i.language != Some("") && i.style.density != Some("")
    && "" !in i.style.formats.GetOr([])
    && (forall o | o in i.objectives.GetOr([]) :: o != Text("") && o != Record(Some("")) && o != Printed(""))
    && (forall a | a in i.assets.GetOr([]) :: a.description != Some(""))
    && (forall a | a in i.assessments.GetOr([]) && a.instructions != Some("") :: a.title != Some(""))
  }

  predicate SectionsHaveText(u: Unicode, i: Input, draft: Option<Draft>) {
    if Given(i, draft).None? || Given(i, draft).value == [] then Prompt(i) != ""
    else forall s | s in Given(i, draft).value :: SectionHasText(u, s)
  }

  /** No text of a spec is empty exactly when what is trimmed holds more than whitespace and what is passed on is not empty:
      of the sections their titles, purposes and every content that is not empty, and without sections the prompt; of the
      assessments the titles of those that have instructions. */
  lemma NothingEmptyIff(u: Unicode, i: Input, resolvedOutputType: string, draft: Option<Draft>)
    ensures Filled(BuildSpec(u, i, resolvedOutputType, draft)) <==>
      && resolvedOutputType != "" && TrimmedHaveText(u, i) && PassedOnFilled(i) && SectionsHaveText(u, i, draft)
  {
    hide BuildSpec, BuildSections, TrimmedHaveText, PassedOnFilled, SectionHasText, NothingEmpty;
    TrimmedEmptyIff(u, i, resolvedOutputType, draft);
    PassedOnEmptyIff(u, i, resolvedOutputType, draft);
    FixedTexts(u, i, resolvedOutputType, draft);
    SectionsEmptyIff(u, draft.Some?, Prompt(i), Given(i, draft));
  }

  /** The lists of a spec, and what comes from the output type or from a fixed set of words. */
  lemma FixedTexts(u: Unicode, i: Input, resolvedOutputType: string, draft: Option<Draft>)
    ensures var spec := BuildSpec(u, i, resolvedOutputType, draft);
      && spec.exportFormat == resolvedOutputType && spec.documentMode != "" && spec.unitType != ""
      && spec.sections == BuildSections(u, draft.Some?, Prompt(i), Given(i, draft))
      && spec.assessments == NormalizedAssessments(u, i.assessments.GetOr([]))
      && (forall a | a in spec.assessments :: a.kind != "" && a.instructions != "")
      && (forall a | a in spec.assets :: a.kind != "")
  {
    hide TruncateField, BuildSections;
  }

  lemma TrimmedEmptyIff(u: Unicode, i: Input, resolvedOutputType: string, draft: Option<Draft>)
    ensures var spec := BuildSpec(u, i, resolvedOutputType, draft);
      (spec.title != "" && spec.summary != "" && spec.deliverySummary != "" && spec.tone != "" && spec.audienceLevel != "")
      <==> TrimmedHaveText(u, i)
  {
    hide TruncateField, BuildSections, NormalizedAssessments, HasText;
    TruncatedEmptyIff(u, i.title.GetOr(Prompt(i)), 200);
    TruncatedEmptyIff(u, i.summary.GetOr(Prompt(i)), 1000);
    TruncatedEmptyIff(u, i.deliverySummary.GetOr(Prompt(i)), 1000);
    TruncatedEmptyIff(u, Tone(i.style), 100);
    TruncatedEmptyIff(u, i.style.level.GetOr("general"), 100);
  }

  lemma PassedOnEmptyIff(u: Unicode, i: Input, resolvedOutputType: string, draft: Option<Draft>)
    ensures var spec := BuildSpec(u, i, resolvedOutputType, draft);
      (&& resolvedOutputType != "" && spec.sourceSchemaVersion != "" && spec.language != "" && spec.visualDensity != ""
       && "" !in spec.objectives && "" !in spec.formatPreferences
       && (forall a | a in spec.assets :: a.description != "")
       && (forall a | a in spec.assessments :: a.title != ""))
      <==> resolvedOutputType != "" && PassedOnFilled(i)
  {
    hide TruncateField, BuildSections, NormalizedAssessments, NormalizedAssets, ObjectiveTexts;
    AssessmentsEmptyIff(u, i.assessments.GetOr([]));
    AssetsEmptyIff(i.assets.GetOr([]));
    ObjectivesEmptyIff(i.objectives.GetOr([]));
  }

  lemma {:induction false} AssessmentsEmptyIff(u: Unicode, blocks: seq<Assessment>)
    ensures (forall a | a in NormalizedAssessments(u, blocks) :: a.title != "") <==>
            (forall a | a in blocks && a.instructions != Some("") :: a.title != Some(""))
  {
    if |blocks| > 0 {
      var before, a := blocks[..|blocks| - 1], blocks[|blocks| - 1];
      assert blocks == before + [a];
      AssessmentsEmptyIff(u, before);
      if Instructions(a) != "" {
        var out := AssessmentOut(a.title.GetOr("Activity"), NormalizeAssessmentType(u, a.kind.GetOr("activity")), Instructions(a));
        assert NormalizedAssessments(u, blocks) == NormalizedAssessments(u, before) + [out];
      } else {
        assert NormalizedAssessments(u, blocks) == NormalizedAssessments(u, before);
      }
    }
  }

  lemma AssetsEmptyIff(assets: seq<Asset>)
    ensures (forall a | a in NormalizedAssets(assets) :: a.description != "") <==>
            (forall a | a in assets :: a.description != Some(""))
  {
    var out := NormalizedAssets(assets);
    forall k | 0 <= k < |assets| ensures out[k].description == "" <==> assets[k].description == Some("") {
      assert out[k] in out;
    }
  }

  lemma ObjectivesEmptyIff(objectives: seq<Objective>)
    ensures "" !in ObjectiveTexts(objectives) <==>
            (forall o | o in objectives :: o != Text("") && o != Record(Some("")) && o != Printed(""))
  {
    var out := ObjectiveTexts(objectives);
    forall k | 0 <= k < |objectives| ensures out[k] == ObjectiveText(objectives[k]) {
    }
    if o :| o in objectives && ObjectiveText(o) == "" {
      var k :| 0 <= k < |objectives| && objectives[k] == o;
      assert out[k] in out;
    }
  }

  lemma SectionsEmptyIff(u: Unicode, drafted: bool, prompt: string, given: Option<seq<SectionIn>>)
    ensures (forall s | s in BuildSections(u, drafted, prompt, given) :: NothingEmpty(s)) <==>
      if given.None? || given.value == [] then prompt != "" else forall s | s in given.value :: SectionHasText(u, s)
  {
    var sections := BuildSections(u, drafted, prompt, given);
    if given.Some? && given.value != [] {
      hide NothingEmpty, SectionHasText, BuildSection, BuildSections;
      SectionsBuilt(u, drafted, prompt, given);
      forall s | s in given.value
        ensures NothingEmpty(BuildSection(u, drafted, s)) <==> SectionHasText(u, s)
      {
        SectionEmptyIff(u, drafted, s);
      }
    } else {
      DefaultEmptyIff(prompt);
      assert sections == [DefaultSection(prompt)];
    }
  }

  lemma DefaultEmptyIff(prompt: string)
    ensures NothingEmpty(DefaultSection(prompt)) <==> prompt != ""
  {
    var s := DefaultSection(prompt);
    assert s.blocks == [Block("paragraph", prompt)] && s.blocks[0] in s.blocks;
    assert |prompt| > 200 ==> |s.title| == 200;
    assert |s.purpose| > 0;
  }

  lemma SectionEmptyIff(u: Unicode, drafted: bool, s: SectionIn)
    ensures BuildSection(u, drafted, s).title == "" <==> !HasText(u, s.title.GetOr("Untitled Section"))
    ensures BuildSection(u, drafted, s).purpose == "" <==> !HasText(u, s.purpose.GetOr("Section content"))
    ensures NothingEmpty(BuildSection(u, drafted, s)) <==> SectionHasText(u, s)
  {
    var purpose := s.purpose.GetOr("Section content");
    TruncatedEmptyIff(u, s.title.GetOr("Untitled Section"), 200);
    TruncatedEmptyIff(u, purpose, 500);
    NormalizedEmptyIff(u, drafted, s.blocks.GetOr([]));
    assert purpose == "" ==> !HasText(u, purpose);
  }

  lemma {:induction false} NormalizedEmptyIff(u: Unicode, drafted: bool, blocks: seq<BlockIn>)
    ensures (forall b | b in Normalized(u, drafted, blocks) :: b.content != "") <==>
            (forall b | b in blocks && b.content.GetOr("") != "" :: HasText(u, b.content.value))
  {
    if |blocks| > 0 {
      var before, b := blocks[..|blocks| - 1], blocks[|blocks| - 1];
      assert blocks == before + [b];
      NormalizedEmptyIff(u, drafted, before);
      if b.content.GetOr("") != "" {
        TruncatedEmptyIff(u, b.content.value, 1000);
        var block := Block(if drafted then NormalizeBlockType(u, b.kind.GetOr("paragraph")) else "bullet",
                           TruncateField(u, b.content.value, 1000));
        assert Normalized(u, drafted, blocks) == Normalized(u, drafted, before) + [block];
      } else {
        assert Normalized(u, drafted, blocks) == Normalized(u, drafted, before);
      }
    }
  }

  lemma TruncatedEmptyIff(u: Unicode, s: string, max: nat)
    ensures TruncateField(u, s, max) == "" <==> !HasText(u, s)
  {
    TrimEmptyIff(u, s);
  }

  /** An interpretation with this much in it. */
  function Plain(prompt: string, assessments: seq<Assessment>): Input {
    Input(Some(prompt), None, None, None, None, None, None, Some(assessments), None, None, Style(None, None, None, None, None),
          None, None)
  }

  /** Both can fail, in a section, without any, and elsewhere: an empty prompt, a prompt that is too long, a title of one
      space, an assessment without a title. */
  lemma ShapeIsNotEnough(u: Unicode, output: string)
    requires !u.space('.') && u.space(' ')
    ensures exists s :: s in BuildSpec(u, Plain("", []), output, None).sections && !NothingEmpty(s)
    ensures !ContentsBounded(BuildSpec(u, Plain(seq(1001, _ => 'a'), []), output, None).sections)
    ensures var draft := Draft(Some([SectionIn(Some(" "), None, None, None)]));
      exists s :: s in BuildSpec(u, Plain("x", []), output, Some(draft)).sections && s.title == ""
    ensures var spec := BuildSpec(u, Plain("x", [Assessment(Some(""), None, Some("x"))]), output, None);
      exists a :: a in spec.assessments && a.title == ""
  {
    hide BuildSpec, BuildSections, BuildSection, NothingEmpty, ContentsBounded, NormalizedAssessments;
    FixedTexts(u, Plain("", []), output, None);
    SectionsEmptyIff(u, false, "", None);
    ContentBoundedIff(u, Plain(seq(1001, _ => 'a'), []), output, None);
    var blank := SectionIn(Some(" "), None, None, None);
    assert blank in [blank];
    FixedTexts(u, Plain("x", []), output, Some(Draft(Some([blank]))));
    SectionsBuilt(u, true, "x", Some([blank]));
    SectionEmptyIff(u, true, blank);
    var untitled := Assessment(Some(""), None, Some("x"));
    assert untitled in [untitled] && untitled.instructions != Some("");
    FixedTexts(u, Plain("x", [untitled]), output, None);
    AssessmentsEmptyIff(u, [untitled]);
  }

  lemma TrimEmptyIff(u: Unicode, s: string)
    ensures Trim(u, s) == "" <==> forall c | c in s :: u.space(c)
  {
    TrimStartEmptyIff(u, s);
    TrimEndKeepsWords(u, TrimStart(u, s));
    TrimStartKeepsWords(u, s);
    if |TrimStart(u, s)| > 0 { TrimEndEmptyIff(u, TrimStart(u, s)); }
  }

  lemma {:induction false} TrimStartEmptyIff(u: Unicode, s: string)
    ensures TrimStart(u, s) == "" <==> forall c | c in s :: u.space(c)
  {
    if |s| > 0 {
      TrimStartEmptyIff(u, s[1..]);
      assert s == [s[0]] + s[1..];
      assert s[0] in s;
    }
  }

  lemma {:induction false} TrimEndEmptyIff(u: Unicode, s: string)
    requires |s| > 0 && !u.space(s[0])
    ensures TrimEnd(u, s) != ""
  {
    if u.space(s[|s| - 1]) { TrimEndEmptyIff(u, s[..|s| - 1]); }
  }
}
