/** The content request layer (services/gemini.ts): five generators that send a
    prompt and a response schema to the generative model, refuse an empty reply,
    strip an optional Markdown code fence from the reply and hand the rest to the
    JSON parser, turning every parser failure into one uniform error.

    The model call is the parameter `ai`: it may fail or reply. A fixed `ai`
    answers equal requests alike, so a model that replies differently from call
    to call is a different `ai` per call. `JSON.parse` with its cast is the
    parameter `parse`, which either yields a value or fails. */
module Gemini {
  import opened Types
  import opened Text

  const Fence: string := "```"
  const JsonFence: string := "```json"

  const NoResponseMessage: string := "No response from AI"
  const ParseFailureMessage: string := "Failed to parse AI response. Please try again."

  /** What a generator can throw. */
  datatype Error =
    | UpstreamFailure(reason: string)  // the model call itself threw; rethrown unchanged
    | NoResponse                       // the reply carried no text
    | ParseFailure                     // the unwrapped text did not parse

  /** The message shown for an error. The two fixed messages tell a missing
      reply apart from one that did not parse. */
  function Message(e: Error): (m: string)
    ensures !e.UpstreamFailure? ==> (m == NoResponseMessage <==> e.NoResponse?)
  {
    match e
    case UpstreamFailure(reason) => reason
    case NoResponse => NoResponseMessage
    case ParseFailure => ParseFailureMessage
  }

  /** The outcome of one `generateContent` call: it threw, or it replied with a
      `text` that may be missing. */
  datatype Response = CallFailed(reason: string) | Replied(text: Option<string>)

  // ---------------------------------------------------------------------------
  // Response schemas

  datatype FieldType = StringField | IntegerField | StringListField

  datatype Field = Field(name: string, fieldType: FieldType)

  /** An OBJECT schema: its declared properties and its `required` list. */
  datatype ObjectSchema = ObjectSchema(properties: seq<Field>, required: seq<string>)

  datatype Schema = Object(obj: ObjectSchema) | ArrayOf(item: ObjectSchema)

  datatype ContentKind = KidActivity | QuizQuest | PathwayAdvice | CareerGuidance | MentorProfiles

  /** What is sent to the model: the kind of content and the user's inputs that
      the prompt is built from. The response schema sent with it is
      `SchemaFor(kind)`, so it is determined by the kind. */
  datatype Request = Request(kind: ContentKind, inputs: seq<string>)

  function Names(fields: seq<Field>): (r: seq<string>)
    ensures |r| == |fields|
    ensures forall i :: 0 <= i < |fields| ==> r[i] == fields[i].name
  {
    if fields == [] then [] else [fields[0].name] + Names(fields[1..])
  }

  /** The `required` list names exactly the declared properties, in
      declaration order. */
  predicate RequiresAllDeclared(o: ObjectSchema) {
    o.required == Names(o.properties)
  }

  function ActivitySchema(): (o: ObjectSchema)
    ensures RequiresAllDeclared(o)
  {
    ObjectSchema([Field("title", StringField), Field("description", StringField),
                  Field("materials", StringListField), Field("duration", StringField)],
                 ["title", "description", "materials", "duration"])
  }

  function QuestSchema(): (o: ObjectSchema)
    ensures RequiresAllDeclared(o)
  {
    ObjectSchema([Field("subject", StringField), Field("question", StringField),
                  Field("options", StringListField), Field("correctIndex", IntegerField),
                  Field("explanation", StringField), Field("points", IntegerField)],
                 ["subject", "question", "options", "correctIndex", "explanation", "points"])
  }

  function PathwaySchema(): (o: ObjectSchema)
    ensures RequiresAllDeclared(o)
  {
    ObjectSchema([Field("pathwayName", StringField), Field("fitScore", IntegerField),
                  Field("reasoning", StringField), Field("recommendedClubs", StringListField)],
                 ["pathwayName", "fitScore", "reasoning", "recommendedClubs"])
  }

  function CareerSchema(): (o: ObjectSchema)
    ensures RequiresAllDeclared(o)
  {
    ObjectSchema([Field("title", StringField), Field("category", StringField),
                  Field("description", StringField), Field("requiredSubjects", StringListField),
                  Field("potentialJobs", StringListField), Field("tvetOptions", StringListField),
                  Field("universityPrograms", StringListField)],
                 ["title", "category", "description", "requiredSubjects",
                  "potentialJobs", "tvetOptions", "universityPrograms"])
  }

  function MentorSchema(): (o: ObjectSchema)
    ensures RequiresAllDeclared(o)
  {
    ObjectSchema([Field("id", StringField), Field("name", StringField), Field("role", StringField),
                  Field("company", StringField), Field("location", StringField),
                  Field("bio", StringField), Field("expertise", StringListField)],
                 ["id", "name", "role", "company", "location", "bio", "expertise"])
  }

  /** The schema each generator declares: the two single records are objects,
      the three lists are arrays of objects. */
  function SchemaFor(kind: ContentKind): (s: Schema)
    ensures s.Object? <==> kind == KidActivity || kind == QuizQuest
  {
    match kind
    case KidActivity => Object(ActivitySchema())
    case QuizQuest => Object(QuestSchema())
    case PathwayAdvice => ArrayOf(PathwaySchema())
    case CareerGuidance => ArrayOf(CareerSchema())
    case MentorProfiles => ArrayOf(MentorSchema())
  }

  // ---------------------------------------------------------------------------
  // Unwrapping a fenced reply

  /** Replacing the pattern ^```json\s* (or ^```\s*) with nothing, on text known
      to start with the marker: the marker and the longest white space run after
      it go, and the rest is kept. */
  function StripOpening(s: string, marker: string): (r: string)
    requires StartsWith(s, marker)
    ensures |r| <= |s| - |marker| && r == s[|s| - |r|..]
    ensures AllSpace(s[|marker|..|s| - |r|])
    ensures r == [] || !IsSpace(r[0])
  {
    var x := s[|marker|..];
    var r := TrimStart(x);
    SuffixOfSuffix(s, |marker|, |r|);
    assert s[|marker|..|s| - |r|] == x[..|x| - |r|];
    r
  }

  /** `replace(/\s*```$/, "")`. Without the multiline flag `$` matches only at the
      very end, so only a fence that ends the text is removed, together with the
      whole white space run before it (the leftmost match); text that does not
      end with a fence is kept. */
  function StripClosing(s: string): (r: string)
    ensures |r| <= |s| && r == s[..|r|]
    ensures !EndsWith(s, Fence) ==> r == s
    ensures EndsWith(s, Fence) ==>
      |r| <= |s| - |Fence| && AllSpace(s[|r|..|s| - |Fence|]) && (r == [] || !IsSpace(r[|r| - 1]))
  {
    if EndsWith(s, Fence) then
      var q := s[..|s| - |Fence|];
      var r := TrimEnd(q);
      PrefixOfPrefix(s, |s| - |Fence|, |r|);
      assert s[|r|..|s| - |Fence|] == q[|r|..];
      r
    else
      assert s[..|s|] == s;
      s
  }

  /** The fence test and removal applied to the trimmed reply: a "```json" or
      "```" opening marker and a final closing fence go when the text starts
      with the marker. The tagged marker is tried first; text that does not
      start with a fence is kept, and trimmed text stays trimmed. */
  function StripFences(cleaned: string): (r: string)
    ensures |r| <= |cleaned|
    ensures StartsWith(cleaned, JsonFence) ==> r == StripClosing(StripOpening(cleaned, JsonFence))
    ensures StartsWith(cleaned, Fence) && !StartsWith(cleaned, JsonFence) ==>
      r == StripClosing(StripOpening(cleaned, Fence))
    ensures !StartsWith(cleaned, Fence) ==> r == cleaned
    ensures Trimmed(cleaned) ==> Trimmed(r)
  {
    JsonFenceIsFence(cleaned);
    if StartsWith(cleaned, JsonFence) then
      StripFencedTrimmed(cleaned, JsonFence);
      StripClosing(StripOpening(cleaned, JsonFence))
    else if StartsWith(cleaned, Fence) then
      StripFencedTrimmed(cleaned, Fence);
      StripClosing(StripOpening(cleaned, Fence))
    else cleaned
  }

  /** The text `cleanAndParseJson` hands to the parser: it never starts or ends
      with white space, and text whose trimmed form does not start with a fence
      arrives exactly as trimmed. */
  function Unwrap(text: string): (r: string)
    ensures Trimmed(r) && |r| <= |text|
    ensures !StartsWith(Trim(text), Fence) ==> r == Trim(text)
  {
    StripFences(Trim(text))
  }

  /** Unwrapping only ever removes characters: the result is a slice of the raw
      reply. */
  lemma UnwrapIsTrimmedSlice(text: string)
    ensures exists i :: OccursAt(text, Unwrap(text), i)
  {
    var cleaned := Trim(text);
    var i :| OccursAt(text, cleaned, i);
    var j := StripFencesIsSlice(cleaned);
    var r := StripFences(cleaned);
    assert OccursAt(text, r, i + j) by { SliceOfSlice(text, i, cleaned, j, r); }
    assert r == Unwrap(text);
  }

  lemma StripFencesIsSlice(cleaned: string) returns (j: int)
    ensures OccursAt(cleaned, StripFences(cleaned), j)
  {
    var r := StripFences(cleaned);
    if StartsWith(cleaned, JsonFence) {
      assert r == StripClosing(StripOpening(cleaned, JsonFence));
      j := StripFencedOccurs(cleaned, JsonFence);
    } else if StartsWith(cleaned, Fence) {
      assert r == StripClosing(StripOpening(cleaned, Fence));
      j := StripFencedOccurs(cleaned, Fence);
    } else {
      assert r == cleaned;
      j := 0;
      assert cleaned[0..|cleaned|] == cleaned;
    }
  }

  lemma JsonFenceIsFence(s: string)
    ensures StartsWith(s, JsonFence) ==> StartsWith(s, Fence)
  {
    if StartsWith(s, JsonFence) {
      assert s[..3] == s[..7][..3];
    }
  }

  /** A suffix of trimmed text that does not start with white space is trimmed. */
  lemma SuffixTrimmed(s: string, o: string)
    requires Trimmed(s) && |o| <= |s| && o == s[|s| - |o|..]
    requires o == [] || !IsSpace(o[0])
    ensures Trimmed(o)
  {
    if o != [] {
      assert o[|o| - 1] == s[|s| - 1];
    }
  }

  /** A prefix of trimmed text that does not end with white space is trimmed. */
  lemma PrefixTrimmed(s: string, r: string)
    requires Trimmed(s) && |r| <= |s| && r == s[..|r|]
    requires r == [] || !IsSpace(r[|r| - 1])
    ensures Trimmed(r)
  {
    if r != [] {
      assert r[0] == s[0];
    }
  }

  /** Stripping a fence from trimmed text leaves trimmed text. */
  lemma StripFencedTrimmed(cleaned: string, marker: string)
    requires StartsWith(cleaned, marker)
    ensures Trimmed(cleaned) ==> Trimmed(StripClosing(StripOpening(cleaned, marker)))
  {
    if Trimmed(cleaned) {
      var o := StripOpening(cleaned, marker);
      SuffixTrimmed(cleaned, o);
      if EndsWith(o, Fence) {
        PrefixTrimmed(o, StripClosing(o));
      }
    }
  }

  lemma StripFencedOccurs(cleaned: string, marker: string) returns (j: int)
    requires StartsWith(cleaned, marker)
    ensures OccursAt(cleaned, StripClosing(StripOpening(cleaned, marker)), j)
  {
    var o := StripOpening(cleaned, marker);
    var r := StripClosing(o);
    j := |cleaned| - |o|;
    PrefixOfSuffix(cleaned, o, r);
  }

  lemma PrefixOfSuffix(s: string, o: string, r: string)
    requires |o| <= |s| && o == s[|s| - |o|..]
    requires |r| <= |o| && r == o[..|r|]
    ensures OccursAt(s, r, |s| - |o|)
  {
    assert s[|s| - |o|..][..|r|] == s[|s| - |o|..|s| - |o| + |r|];
  }

  lemma SliceOfSlice(text: string, i: int, mid: string, j: int, r: string)
    requires OccursAt(text, mid, i) && OccursAt(mid, r, j)
    ensures OccursAt(text, r, i + j)
  {
    forall k | 0 <= k < |r| ensures text[i + j + k] == r[k] {
      assert text[i + j + k] == text[i..i + |mid|][j + k] == mid[j + k];
      assert mid[j + k] == mid[j..j + |r|][k];
    }
    assert text[i + j..i + j + |r|] == r;
  }

  // ---------------------------------------------------------------------------
  // Parsing and the generators

  /** `cleanAndParseJson`: unwrap, then parse; every parser failure becomes the
      single `ParseFailure` error. */
  function CleanAndParse<T>(text: string, parse: string -> Option<T>): (r: Result<T, Error>)
    ensures r.Failure? ==> r.error == ParseFailure && Message(r.error) == ParseFailureMessage
    ensures r.Success? <==> parse(Unwrap(text)).Some?
    ensures r.Success? ==> parse(Unwrap(text)) == Some(r.value)
  {
    match parse(Unwrap(text))
    case Some(v) => Success(v)
    case None => Failure(ParseFailure)
  }

  /** `!text` in JavaScript: the text is missing or empty. */
  predicate NoText(text: Option<string>) {
    text == None || text == Some([])
  }

  /** What a generator promises about its result `r` given the model's `reply`
      to its request: a failed call, and only a failed call, is rethrown with its
      own message; a reply without text, and only such a reply, fails with
      "No response from AI"; any other reply succeeds exactly when the parser
      accepts its unwrapped text, with the parsed value, and otherwise fails
      with "Failed to parse AI response. Please try again.". */
  ghost predicate Answers<T>(reply: Response, parse: string -> Option<T>, r: Result<T, Error>) {
    && (reply.CallFailed? <==> r.Failure? && r.error.UpstreamFailure?)
    && (reply.CallFailed? ==> Message(r.error) == reply.reason)
    && (reply.Replied? && NoText(reply.text) <==> r == Failure(NoResponse))
    && (reply.Replied? && NoText(reply.text) ==> Message(r.error) == NoResponseMessage)
    && (reply.Replied? && !NoText(reply.text) ==>
          && (r.Success? <==> parse(Unwrap(reply.text.value)).Some?)
          && (r.Success? ==> parse(Unwrap(reply.text.value)) == Some(r.value))
          && (r.Failure? ==> Message(r.error) == ParseFailureMessage))
  }

  /** One generator: ask the model, refuse a reply without text, otherwise
      unwrap and parse. A failed call is rethrown unchanged. */
  function Generate<T>(kind: ContentKind, inputs: seq<string>, ai: Request -> Response,
                       parse: string -> Option<T>): (r: Result<T, Error>)
    ensures Answers(ai(Request(kind, inputs)), parse, r)
  {
    match ai(Request(kind, inputs))
    case CallFailed(reason) => Failure(UpstreamFailure(reason))
    case Replied(text) =>
      if NoText(text) then Failure(NoResponse) else CleanAndParse(text.value, parse)
  }

  /** `generateKidActivity`: one activity request built from the interest. */
  function GenerateKidActivity(interest: string, ai: Request -> Response,
                               parse: string -> Option<Activity>): (r: Result<Activity, Error>)
    ensures Answers(ai(Request(KidActivity, [interest])), parse, r)
  {
    Generate(KidActivity, [interest], ai, parse)
  }

  /** `generateQuest`: one quiz request built from the subject. */
  function GenerateQuest(subject: string, ai: Request -> Response,
                         parse: string -> Option<Quest>): (r: Result<Quest, Error>)
    ensures Answers(ai(Request(QuizQuest, [subject])), parse, r)
  {
    Generate(QuizQuest, [subject], ai, parse)
  }

  /** `generatePathwayAdvice`: one pathway request built from the interests and
      the strengths, in that order. */
  function GeneratePathwayAdvice(interests: string, strengths: string, ai: Request -> Response,
                                 parse: string -> Option<seq<PathwayRecommendation>>)
    : (r: Result<seq<PathwayRecommendation>, Error>)
    ensures Answers(ai(Request(PathwayAdvice, [interests, strengths])), parse, r)
  {
    Generate(PathwayAdvice, [interests, strengths], ai, parse)
  }

  /** `generateCareerGuidance`: one career request built from the subjects and
      the hobbies, in that order. */
  function GenerateCareerGuidance(subjects: string, hobbies: string, ai: Request -> Response,
                                  parse: string -> Option<seq<CareerPath>>)
    : (r: Result<seq<CareerPath>, Error>)
    ensures Answers(ai(Request(CareerGuidance, [subjects, hobbies])), parse, r)
  {
    Generate(CareerGuidance, [subjects, hobbies], ai, parse)
  }

  /** `findMentors`: one mentor request built from the career interest. */
  function FindMentors(careerInterest: string, ai: Request -> Response,
                       parse: string -> Option<seq<Mentor>>): (r: Result<seq<Mentor>, Error>)
    ensures Answers(ai(Request(MentorProfiles, [careerInterest])), parse, r)
  {
    Generate(MentorProfiles, [careerInterest], ai, parse)
  }

  /** A reply without text fails with `NoResponse` whatever the parser would
      have done: the parser is never consulted. */
  lemma EmptyReplyNeverParsed<T>(kind: ContentKind, inputs: seq<string>, ai: Request -> Response,
                                 parse1: string -> Option<T>, parse2: string -> Option<T>)
    requires ai(Request(kind, inputs)).Replied? && NoText(ai(Request(kind, inputs)).text)
    ensures Generate(kind, inputs, ai, parse1) == Generate(kind, inputs, ai, parse2) == Failure(NoResponse)
  {
  }

  // ---------------------------------------------------------------------------
  // Properties of the unwrapping

  lemma {:induction false} TrimStartSkips(lead: string, x: string)
    requires AllSpace(lead)
    ensures TrimStart(lead + x) == TrimStart(x)
    decreases |lead|
  {
    if lead != [] {
      assert (lead + x)[0] == lead[0];
      assert TrimStart(lead + x) == TrimStart((lead + x)[1..]);
      assert (lead + x)[1..] == lead[1..] + x;
      TrimStartSkips(lead[1..], x);
    } else {
      assert lead + x == x;
    }
  }

  lemma {:induction false} TrimEndSkips(x: string, trail: string)
    requires AllSpace(trail)
    ensures TrimEnd(x + trail) == TrimEnd(x)
    decreases |trail|
  {
    if trail != [] {
      var t := trail[..|trail| - 1];
      assert (x + trail)[..|x + trail| - 1] == x + t;
      TrimEndSkips(x, t);
    } else {
      assert x + trail == x;
    }
  }

  /** Trimming removes exactly the white space around a trimmed core. */
  lemma TrimAround(lead: string, core: string, trail: string)
    requires AllSpace(lead) && AllSpace(trail) && Trimmed(core)
    ensures Trim(lead + core + trail) == core
  {
    TrimEndSkips(lead + core, trail);
    if core == [] {
      assert lead + core == [] + lead;
      TrimEndSkips([], lead);
    } else {
      assert TrimEnd(lead + core) == lead + core;
      TrimStartSkips(lead, core);
    }
  }

  lemma TrimStartStops(x: string)
    requires x == [] || !IsSpace(x[0])
    ensures TrimStart(x) == x
  {
  }

  lemma TrimEndStops(x: string)
    requires x == [] || !IsSpace(x[|x| - 1])
    ensures TrimEnd(x) == x
  {
  }

  lemma StripOpeningMarker(marker: string, x: string)
    ensures StartsWith(marker + x, marker)
    ensures StripOpening(marker + x, marker) == TrimStart(x)
  {
    assert (marker + x)[..|marker|] == marker;
    assert (marker + x)[|marker|..] == x;
  }

  lemma FenceUntrimmed()
    ensures TrimStart(Fence) == Fence
  {
    assert Fence[0] == '`';
    TrimStartStops(Fence);
  }

  /** With an empty payload only the closing fence is left. */
  lemma StripOpeningEmpty(marker: string, ws: string)
    requires AllSpace(ws)
    ensures StartsWith(marker + ws + Fence, marker)
    ensures StripOpening(marker + ws + Fence, marker) == Fence
  {
    assert marker + ws + Fence == marker + (ws + Fence);
    StripOpeningMarker(marker, ws + Fence);
    TrimStartSkips(ws, Fence);
    FenceUntrimmed();
  }

  /** Removing the opening marker and the white space after it leaves the
      payload, the white space after it and the closing fence; for an empty
      payload that white space goes too. */
  lemma StripOpeningFenced(marker: string, ws1: string, p: string, ws2: string)
    requires AllSpace(ws1) && AllSpace(ws2) && Trimmed(p)
    ensures StartsWith(marker + ws1 + p + ws2 + Fence, marker)
    ensures StripOpening(marker + ws1 + p + ws2 + Fence, marker)
            == if p == [] then Fence else p + ws2 + Fence
  {
    if p == [] {
      assert marker + ws1 + p + ws2 + Fence == marker + (ws1 + ws2) + Fence;
      StripOpeningEmpty(marker, ws1 + ws2);
    } else {
      var rest := p + ws2 + Fence;
      assert marker + ws1 + p + ws2 + Fence == marker + (ws1 + rest);
      StripOpeningMarker(marker, ws1 + rest);
      TrimStartSkips(ws1, rest);
      assert rest[0] == p[0];
      TrimStartStops(rest);
    }
  }

  /** A closing fence at the very end goes with the white space before it. */
  lemma StripClosingFenced(p: string, ws2: string)
    requires AllSpace(ws2) && Trimmed(p)
    ensures StripClosing(p + ws2 + Fence) == p
  {
    var o := p + ws2 + Fence;
    assert o[|o| - |Fence|..] == Fence;
    assert o[..|o| - |Fence|] == p + ws2;
    TrimEndSkips(p, ws2);
    TrimEndStops(p);
  }

  /** After the opening marker and the white space that follows it, a trimmed
      payload and a closing fence preceded by white space are stripped down to
      the payload. */
  lemma StripBothFences(cleaned: string, marker: string, ws1: string, p: string, ws2: string)
    requires AllSpace(ws1) && AllSpace(ws2) && Trimmed(p)
    requires cleaned == marker + ws1 + p + ws2 + Fence
    ensures StartsWith(cleaned, marker)
    ensures StripClosing(StripOpening(cleaned, marker)) == p
  {
    StripOpeningFenced(marker, ws1, p, ws2);
    if p == [] {
      assert StripClosing(Fence) == TrimEnd([]);
    } else {
      StripClosingFenced(p, ws2);
    }
  }

  /** A fenced text starts and ends with a backtick, so trimming leaves it alone. */
  lemma FencedIsTrimmed(marker: string, mid: string)
    requires marker == Fence || marker == JsonFence
    ensures Trimmed(marker + mid + Fence)
  {
    var t := marker + mid + Fence;
    assert t[0] == marker[0] == '`';
    assert t[|t| - 1] == Fence[2] == '`';
  }

  lemma StripFencesJson(ws1: string, p: string, ws2: string)
    requires AllSpace(ws1) && AllSpace(ws2) && Trimmed(p)
    ensures StripFences(JsonFence + ws1 + p + ws2 + Fence) == p
  {
    StripBothFences(JsonFence + ws1 + p + ws2 + Fence, JsonFence, ws1, p, ws2);
  }

  /** A bare fence followed by white space, or by a payload that does not start
      with "json", is not the tagged form. */
  lemma BareFenceIsNotJson(ws1: string, p: string, rest: string)
    requires AllSpace(ws1)
    requires ws1 != [] || !StartsWith(p, "json")
    requires rest == [] || IsSpace(rest[0]) || rest[0] == '`'
    ensures !StartsWith(Fence + ws1 + p + rest, JsonFence)
  {
    var core := Fence + ws1 + p + rest;
    if ws1 != [] {
      assert core[3] == ws1[0];
    } else if |p| >= 4 {
      assert core[3..7] == p[..4];
    } else if rest != [] {
      assert core[3 + |p|] == rest[0];
      assert JsonFence[3 + |p|] != rest[0];
    }
  }

  lemma StripFencesBare(ws1: string, p: string, ws2: string)
    requires AllSpace(ws1) && AllSpace(ws2) && Trimmed(p)
    requires ws1 != [] || !StartsWith(p, "json")
    ensures StripFences(Fence + ws1 + p + ws2 + Fence) == p
  {
    var core := Fence + ws1 + p + ws2 + Fence;
    assert core == Fence + ws1 + p + (ws2 + Fence);
    BareFenceIsNotJson(ws1, p, ws2 + Fence);
    StripBothFences(core, Fence, ws1, p, ws2);
  }

  /** A reply fenced as "```json", with any white space around the payload and
      around the whole reply, unwraps to the payload. */
  lemma UnwrapJsonFenced(lead: string, ws1: string, p: string, ws2: string, trail: string)
    requires AllSpace(lead) && AllSpace(ws1) && AllSpace(ws2) && AllSpace(trail) && Trimmed(p)
    ensures Unwrap(lead + JsonFence + ws1 + p + ws2 + Fence + trail) == p
  {
    var core := JsonFence + ws1 + p + ws2 + Fence;
    assert lead + JsonFence + ws1 + p + ws2 + Fence + trail == lead + core + trail;
    assert core == JsonFence + (ws1 + p + ws2) + Fence;
    FencedIsTrimmed(JsonFence, ws1 + p + ws2);
    TrimAround(lead, core, trail);
    StripFencesJson(ws1, p, ws2);
  }

  /** The same for a bare "```" fence, as long as the text after the fence is
      not itself "json" (which would make it the tagged form). */
  lemma UnwrapBareFenced(lead: string, ws1: string, p: string, ws2: string, trail: string)
    requires AllSpace(lead) && AllSpace(ws1) && AllSpace(ws2) && AllSpace(trail) && Trimmed(p)
    requires ws1 != [] || !StartsWith(p, "json")
    ensures Unwrap(lead + Fence + ws1 + p + ws2 + Fence + trail) == p
  {
    var core := Fence + ws1 + p + ws2 + Fence;
    assert lead + Fence + ws1 + p + ws2 + Fence + trail == lead + core + trail;
    assert core == Fence + (ws1 + p + ws2) + Fence;
    FencedIsTrimmed(Fence, ws1 + p + ws2);
    TrimAround(lead, core, trail);
    StripFencesBare(ws1, p, ws2);
  }

  /** After the opening marker and the white space that follows it, a payload
      that starts with no white space is all that is left. */
  lemma StripOpeningUnclosed(marker: string, ws1: string, p: string)
    requires AllSpace(ws1) && p != [] && !IsSpace(p[0])
    ensures StartsWith(marker + ws1 + p, marker)
    ensures StripOpening(marker + ws1 + p, marker) == p
  {
    assert marker + ws1 + p == marker + (ws1 + p);
    StripOpeningMarker(marker, ws1 + p);
    TrimStartSkips(ws1, p);
    TrimStartStops(p);
  }

  /** An opened fence that is never closed (a truncated reply, or prose after
      the closing fence) still loses its marker and the white space after it;
      the rest reaches the parser as it is. */
  lemma UnwrapJsonUnclosed(lead: string, ws1: string, p: string, trail: string)
    requires AllSpace(lead) && AllSpace(ws1) && AllSpace(trail)
    requires Trimmed(p) && p != [] && !EndsWith(p, Fence)
    ensures Unwrap(lead + JsonFence + ws1 + p + trail) == p
  {
    var core := JsonFence + ws1 + p;
    assert lead + JsonFence + ws1 + p + trail == lead + core + trail;
    assert core[0] == '`' && core[|core| - 1] == p[|p| - 1];
    TrimAround(lead, core, trail);
    StripOpeningUnclosed(JsonFence, ws1, p);
    assert StripFences(core) == StripClosing(p);
  }

  /** The same for a bare "```" fence that is never closed, as long as the
      text after it is not itself "json". */
  lemma UnwrapBareUnclosed(lead: string, ws1: string, p: string, trail: string)
    requires AllSpace(lead) && AllSpace(ws1) && AllSpace(trail)
    requires Trimmed(p) && p != [] && !EndsWith(p, Fence)
    requires ws1 != [] || !StartsWith(p, "json")
    ensures Unwrap(lead + Fence + ws1 + p + trail) == p
  {
    var core := Fence + ws1 + p;
    assert lead + Fence + ws1 + p + trail == lead + core + trail;
    assert core == Fence + ws1 + p + [];
    assert core[0] == '`' && core[|core| - 1] == p[|p| - 1];
    TrimAround(lead, core, trail);
    BareFenceIsNotJson(ws1, p, []);
    StripOpeningUnclosed(Fence, ws1, p);
    assert StripFences(core) == StripClosing(p);
  }

  /** What the model usually sends: the payload on its own lines between
      fences. Both forms unwrap to exactly the payload. */
  lemma FencedRoundTrip(p: string)
    requires Trimmed(p)
    ensures Unwrap(JsonFence + "\n" + p + "\n" + Fence) == p
    ensures Unwrap(Fence + "\n" + p + "\n" + Fence) == p
  {
    JsonFencedRoundTrip(p);
    BareFencedRoundTrip(p);
  }

  lemma JsonFencedRoundTrip(p: string)
    requires Trimmed(p)
    ensures Unwrap(JsonFence + "\n" + p + "\n" + Fence) == p
  {
    var nl := "\n";
    assert AllSpace(nl);
    var tagged := JsonFence + nl + p + nl + Fence;
    assert tagged == JsonFence + (nl + p + nl) + Fence;
    FencedIsTrimmed(JsonFence, nl + p + nl);
    StripFencesJson(nl, p, nl);
  }

  lemma BareFencedRoundTrip(p: string)
    requires Trimmed(p)
    ensures Unwrap(Fence + "\n" + p + "\n" + Fence) == p
  {
    var nl := "\n";
    assert AllSpace(nl);
    var bare := Fence + nl + p + nl + Fence;
    assert bare == Fence + (nl + p + nl) + Fence;
    FencedIsTrimmed(Fence, nl + p + nl);
    StripFencesBare(nl, p, nl);
  }

  /** A fenced reply parses exactly as the bare payload would. */
  lemma FencedParsesAsBare<T>(p: string, parse: string -> Option<T>)
    requires Trimmed(p) && !StartsWith(p, Fence)
    ensures CleanAndParse(JsonFence + "\n" + p + "\n" + Fence, parse) == CleanAndParse(p, parse)
    ensures CleanAndParse(Fence + "\n" + p + "\n" + Fence, parse) == CleanAndParse(p, parse)
  {
    FencedRoundTrip(p);
    UnwrapPayload(p);
    SameUnwrapSameParse(JsonFence + "\n" + p + "\n" + Fence, p, parse);
    SameUnwrapSameParse(Fence + "\n" + p + "\n" + Fence, p, parse);
  }

  /** A trimmed payload that is not fenced is handed to the parser unchanged. */
  lemma UnwrapPayload(p: string)
    requires Trimmed(p) && !StartsWith(p, Fence)
    ensures Unwrap(p) == p
  {
    assert Trim(p) == p;
  }

  lemma SameUnwrapSameParse<T>(a: string, b: string, parse: string -> Option<T>)
    requires Unwrap(a) == Unwrap(b)
    ensures CleanAndParse(a, parse) == CleanAndParse(b, parse)
  {
  }
}
