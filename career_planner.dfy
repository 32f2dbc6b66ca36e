/** The senior-school career planner (components/CareerPlanner.tsx): career
    suggestions for a subject combination and hobbies, a mentor search, the list
    of mentors the student has asked to connect with, and the colour scheme a
    career card gets from its free-text category. */
module CareerPlanner {
  import opened Types
  import opened Text
  import Gemini

  // ---------------------------------------------------------------------------
  // Mentor requests

  /** Asking to connect with mentor `id`: a new id goes to the end of the list,
      an id already asked for changes nothing. */
  function AddRequest(requested: seq<string>, id: string): (r: seq<string>)
    ensures |requested| <= |r| <= |requested| + 1 && r[..|requested|] == requested
    ensures forall x :: x in r <==> x in requested || x == id
    ensures NoDuplicates(requested) ==> NoDuplicates(r)
    ensures id in requested ==> r == requested
  {
    if id in requested then requested
    else
      assert (requested + [id])[..|requested|] == requested;
      requested + [id]
  }

  /** Asking twice is asking once. */
  lemma AddRequestIdempotent(requested: seq<string>, id: string)
    ensures AddRequest(AddRequest(requested, id), id) == AddRequest(requested, id)
  {
    assert id in AddRequest(requested, id);
  }

  // ---------------------------------------------------------------------------
  // Category styles

  /** The four colour schemes of a career card. */
  datatype Style = Green | Tech | Health | Default

  const GreenWords: seq<string> := ["green", "conservation", "agri", "sustain"]
  const TechWords: seq<string> := ["tech", "data", "ai", "robotics", "cyber"]
  const HealthWords: seq<string> := ["health", "medical"]

  /** Some keyword of `ks` occurs in `s`. */
  predicate ContainsAny(s: string, ks: seq<string>) {
    ks != [] && (Contains(s, ks[0]) || ContainsAny(s, ks[1..]))
  }

  /** Some keyword of `ks` occurs in `s` up to the case of its letters. */
  ghost predicate MentionsAny(s: string, ks: seq<string>) {
    exists k :: k in ks && ContainsIgnoringCase(s, k)
  }

  /** Searching the lower-cased text for lower-case keywords finds exactly the
      keywords the text mentions in any case. */
  lemma {:induction false} ContainsAnyIgnoringCase(s: string, ks: seq<string>)
    requires forall k :: k in ks ==> Lower(k) == k
    ensures ContainsAny(Lower(s), ks) <==> MentionsAny(s, ks)
  {
    if ks != [] {
      LowerContains(s, ks[0]);
      ContainsAnyIgnoringCase(s, ks[1..]);
      assert forall k :: k in ks ==> k == ks[0] || k in ks[1..];
    }
  }

  lemma KeywordsAreLowerCase()
    ensures forall k :: k in GreenWords ==> Lower(k) == k
    ensures forall k :: k in TechWords ==> Lower(k) == k
    ensures forall k :: k in HealthWords ==> Lower(k) == k
  {
    forall k | k in GreenWords + TechWords + HealthWords
      ensures Lower(k) == k
    {
      LowerOfLowerCase(k);
    }
  }

  /** The style of a category: the lower-cased category is tested against the
      green keywords, then the tech keywords, then the health keywords; the
      first group with a match wins and no match gives the default style.
      Stated on the category itself: green keywords mentioned in any case beat
      tech ones, tech beats health, and every category gets a style. */
  function CategoryOf(category: string): (r: Style)
    ensures r == Green <==> MentionsAny(category, GreenWords)
    ensures r == Tech <==>
      !MentionsAny(category, GreenWords) && MentionsAny(category, TechWords)
    ensures r == Health <==>
      !MentionsAny(category, GreenWords) && !MentionsAny(category, TechWords)
      && MentionsAny(category, HealthWords)
    ensures r == Default <==>
      !MentionsAny(category, GreenWords) && !MentionsAny(category, TechWords)
      && !MentionsAny(category, HealthWords)
  {
    KeywordsAreLowerCase();
    ContainsAnyIgnoringCase(category, GreenWords);
    ContainsAnyIgnoringCase(category, TechWords);
    ContainsAnyIgnoringCase(category, HealthWords);
    var lower := Lower(category);
    if ContainsAny(lower, GreenWords) then Green
    else if ContainsAny(lower, TechWords) then Tech
    else if ContainsAny(lower, HealthWords) then Health
    else Default
  }

  /** Every category that mentions "sustain" also mentions the tech keyword "ai"
      (sust-ai-n), and is still styled green because the green group is tested
      first. */
  lemma SustainIsGreenNotTech(category: string)
    requires ContainsIgnoringCase(category, "sustain")
    ensures ContainsIgnoringCase(category, "ai")
    ensures CategoryOf(category) == Green
  {
    SustainContainsAi(category);
    assert "sustain" in GreenWords;
    assert MentionsAny(category, GreenWords);
  }

  lemma SustainContainsAi(category: string)
    requires ContainsIgnoringCase(category, "sustain")
    ensures ContainsIgnoringCase(category, "ai")
  {
    var i :| OccursIgnoringCaseAt(category, "sustain", i);
    assert Lower("sustain")[4..6] == Lower("ai") by {
      LowerOfLowerCase("sustain");
      LowerOfLowerCase("ai");
    }
    OccursWithinIgnoringCase(category, "sustain", i, 4, 6, "ai");
  }

  // ---------------------------------------------------------------------------
  // The component

  /** The component's state. As in the explorer, the handlers take the request
      layer's generator as a parameter: `(a, b) => Gemini.GenerateCareerGuidance(a, b, ai, parse)`
      and `s => Gemini.FindMentors(s, ai, parse)`. */
  class Planner {
    var careers: seq<CareerPath>
    var status: LoadingState
    var mentors: seq<Mentor>
    var mentorStatus: LoadingState
    /** Ids of the mentors asked for, in the order asked. */
    var requestedMentors: seq<string>

    predicate Valid()
      reads this
    {
      NoDuplicates(requestedMentors)
    }

    constructor ()
      ensures Valid()
      ensures careers == [] && mentors == [] && requestedMentors == []
      ensures status == Idle && mentorStatus == Idle
    {
      careers := [];
      status := Idle;
      mentors := [];
      mentorStatus := Idle;
      requestedMentors := [];
    }

    /** Suggesting careers for `subjects` and `hobbies`. Nothing happens unless
        both are non-empty (white space counts as input here); the new list
        replaces the old one on success and the old one stays on failure. */
    method HandlePlan(subjects: string, hobbies: string,
                      generateCareerGuidance: (string, string) -> Result<seq<CareerPath>, Gemini.Error>)
      requires Valid()
      modifies this
      ensures Valid()
      ensures mentors == old(mentors) && mentorStatus == old(mentorStatus)
      ensures requestedMentors == old(requestedMentors)
      ensures subjects == [] || hobbies == [] ==> careers == old(careers) && status == old(status)
      ensures subjects != [] && hobbies != [] ==>
        var r := generateCareerGuidance(subjects, hobbies);
        && (r.Success? ==> careers == r.value && status == SuccessState)
        && (r.Failure? ==> careers == old(careers) && status == ErrorState)
    {
      if subjects == [] || hobbies == [] {
        return;
      }
      status := Loading;
      var r := generateCareerGuidance(subjects, hobbies);
      if r.Success? {
        careers := r.value;
        status := SuccessState;
      } else {
        status := ErrorState;
      }
    }

    /** Searching mentors for `interest`: ignored when it is empty; the found
        mentors replace the old ones on success and the old ones stay on failure.
        The requests already made are kept either way. */
    method HandleFindMentors(interest: string, findMentors: string -> Result<seq<Mentor>, Gemini.Error>)
      requires Valid()
      modifies this
      ensures Valid()
      ensures careers == old(careers) && status == old(status)
      ensures requestedMentors == old(requestedMentors)
      ensures interest == [] ==> mentors == old(mentors) && mentorStatus == old(mentorStatus)
      ensures interest != [] ==>
        var r := findMentors(interest);
        && (r.Success? ==> mentors == r.value && mentorStatus == SuccessState)
        && (r.Failure? ==> mentors == old(mentors) && mentorStatus == ErrorState)
    {
      if interest == [] {
        return;
      }
      mentorStatus := Loading;
      var r := findMentors(interest);
      if r.Success? {
        mentors := r.value;
        mentorStatus := SuccessState;
      } else {
        mentorStatus := ErrorState;
      }
    }

    /** Asking to connect with mentor `id`; asking again changes nothing. */
    method ToggleRequest(id: string)
      requires Valid()
      modifies this
      ensures Valid()
      ensures requestedMentors == AddRequest(old(requestedMentors), id)
      ensures careers == old(careers) && status == old(status)
      ensures mentors == old(mentors) && mentorStatus == old(mentorStatus)
    {
      if id in requestedMentors {
        return;
      }
      requestedMentors := requestedMentors + [id];
    }
  }
}
