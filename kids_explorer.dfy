/** The children's explorer (components/KidsExplorer.tsx): a quiz where a correct
    answer earns the quest's points, counts towards mastery of the subject the
    quest is about and may unlock badges; an activity generator; and a mock
    leaderboard that ranks the player among three fixed classmates.

    The component's state is the class `Session`; what a correct answer does to
    the player's progress is the pure function `Scored`, and the leaderboard is
    the pure function `Leaderboard`. */
module KidsExplorer {
  import opened Types
  import opened Text
  import Gemini

  // ---------------------------------------------------------------------------
  // Subjects and mastery

  /** The three subjects mastery is tracked for. */
  datatype Subject = Math | Science | English

  /** Which mastery bucket a quest's free-text subject falls into: the first of
      "math", "science", "english" that occurs in the lower-cased subject, or
      none at all. Stated on the subject itself: "math" occurring in any case
      takes priority over "science", and "science" over "english". */
  function SubjectKey(subject: string): (r: Option<Subject>)
    ensures r == Some(Math) <==> ContainsIgnoringCase(subject, "math")
    ensures r == Some(Science) <==>
      !ContainsIgnoringCase(subject, "math") && ContainsIgnoringCase(subject, "science")
    ensures r == Some(English) <==>
      !ContainsIgnoringCase(subject, "math") && !ContainsIgnoringCase(subject, "science")
      && ContainsIgnoringCase(subject, "english")
    ensures r == None <==>
      !ContainsIgnoringCase(subject, "math") && !ContainsIgnoringCase(subject, "science")
      && !ContainsIgnoringCase(subject, "english")
  {
    LowerOfLowerCase("math");
    LowerOfLowerCase("science");
    LowerOfLowerCase("english");
    LowerContains(subject, "math");
    LowerContains(subject, "science");
    LowerContains(subject, "english");
    var s := Lower(subject);
    if Contains(s, "math") then Some(Math)
    else if Contains(s, "science") then Some(Science)
    else if Contains(s, "english") then Some(English)
    else None
  }

  /** Correct answers per subject. */
  datatype Mastery = Mastery(math: nat, science: nat, english: nat)

  function Count(m: Mastery, s: Subject): nat {
    match s
    case Math => m.math
    case Science => m.science
    case English => m.english
  }

  /** One more correct answer in subject `s`; the other counts are kept. */
  function Bump(m: Mastery, s: Subject): (r: Mastery)
    ensures Count(r, s) == Count(m, s) + 1
    ensures forall t :: t != s ==> Count(r, t) == Count(m, t)
  {
    match s
    case Math => m.(math := m.math + 1)
    case Science => m.(science := m.science + 1)
    case English => m.(english := m.english + 1)
  }

  // ---------------------------------------------------------------------------
  // Badges

  /** The badges the explorer can earn. The component keeps whole badge records
      and looks them up by id; every record it ever holds is one of these five,
      so the model keeps which of them are held, in order, and `BadgeOf` gives
      the record shown for each. */
  datatype Award = ExplorerAward | BrainiacAward | MasteryAward(subject: Subject)

  /** The id each badge is stored and looked up under. */
  function BadgeId(a: Award): string {
    match a
    case ExplorerAward => "1"
    case BrainiacAward => "2"
    case MasteryAward(Math) => "math-master"
    case MasteryAward(Science) => "science-whiz"
    case MasteryAward(English) => "word-wizard"
  }

  function BadgeOf(a: Award): (b: Badge)
    ensures b.id == BadgeId(a)
  {
    match a
    case ExplorerAward => Badge("1", "Explorer", "\U{1F680}", "Started the journey")
    case BrainiacAward => Badge("2", "Brainiac", "\U{1F9E0}", "Reached 200 points")
    case MasteryAward(Math) =>
      Badge("math-master", "Math Master", "\U{1F9EE}", "Answered 3 Math questions correctly!")
    case MasteryAward(Science) =>
      Badge("science-whiz", "Science Whiz", "\U{1F52C}", "Answered 3 Science questions correctly!")
    case MasteryAward(English) =>
      Badge("word-wizard", "Word Wizard", "\U{1F4DA}", "Answered 3 English questions correctly!")
  }

  /** The badge ids are pairwise different, so looking a badge up by id is the
      same as asking whether that badge is held. */
  lemma BadgeIdsIdentify(a: Award, b: Award)
    ensures BadgeOf(a).id == BadgeOf(b).id <==> a == b
  {
    if a != b {
      assert BadgeId(a)[0] != BadgeId(b)[0];
    }
  }

  /** The badge records the component holds for the awards `held`. */
  function Badges(held: seq<Award>): (r: seq<Badge>)
    ensures |r| == |held|
    ensures forall i :: 0 <= i < |held| ==> r[i] == BadgeOf(held[i])
  {
    if held == [] then [] else [BadgeOf(held[0])] + Badges(held[1..])
  }

  /** `badges.find(b => b.id === id)` finds something. */
  predicate HasBadgeId(badges: seq<Badge>, id: string) {
    exists i :: 0 <= i < |badges| && badges[i].id == id
  }

  predicate DistinctIds(badges: seq<Badge>) {
    forall i, j :: 0 <= i < j < |badges| ==> badges[i].id != badges[j].id
  }

  /** Looking up an award's id among the held records finds it exactly when the
      award is held. */
  lemma FindById(held: seq<Award>, a: Award)
    ensures HasBadgeId(Badges(held), BadgeOf(a).id) <==> a in held
  {
    var r := Badges(held);
    if HasBadgeId(r, BadgeOf(a).id) {
      var i :| 0 <= i < |r| && r[i].id == BadgeOf(a).id;
      BadgeIdsIdentify(held[i], a);
    }
    if a in held {
      var i :| 0 <= i < |held| && held[i] == a;
      assert r[i].id == BadgeOf(a).id;
    }
  }

  /** Holding no award twice means holding no badge id twice. */
  lemma DistinctAwardsDistinctIds(held: seq<Award>)
    requires NoDuplicates(held)
    ensures DistinctIds(Badges(held))
  {
    var r := Badges(held);
    forall i, j | 0 <= i < j < |r|
      ensures r[i].id != r[j].id
    {
      BadgeIdsIdentify(held[i], held[j]);
    }
  }

  const BrainiacThreshold: int := 200
  /** The number of correct answers in a subject that unlocks its badge. */
  const MasteryThreshold: nat := 3

  /** The awards after a correct answer in subject `key` that brings the points
      to `newPoints` and that subject's count to `newCount`: Brainiac is appended
      when the points reach 200 and the subject's badge when the count is
      exactly 3, each only if it is not held yet. Nothing is ever removed. */
  function Awarded(held: seq<Award>, newPoints: int, key: Subject, newCount: int): (r: seq<Award>)
    ensures |held| <= |r| && r[..|held|] == held
    ensures forall a :: a in r <==>
      a in held || (a == BrainiacAward && newPoints >= BrainiacThreshold)
      || (a == MasteryAward(key) && newCount == MasteryThreshold)
    ensures NoDuplicates(held) ==> NoDuplicates(r)
    ensures newPoints >= BrainiacThreshold && BrainiacAward !in held ==> r[|held|] == BrainiacAward
  {
    var brainiac := if newPoints >= BrainiacThreshold && BrainiacAward !in held then [BrainiacAward] else [];
    var mastery := if newCount == MasteryThreshold && MasteryAward(key) !in held then [MasteryAward(key)] else [];
    assert (held + brainiac + mastery)[..|held|] == held;
    held + brainiac + mastery
  }

  // ---------------------------------------------------------------------------
  // Scoring a correct answer

  /** The part of the explorer's state a correct answer changes. */
  datatype Progress = Progress(points: int, mastery: Mastery, badges: seq<Award>)

  const InitialProgress: Progress := Progress(120, Mastery(0, 0, 0), [ExplorerAward])

  /** What a correct answer to `q` does: the quest's points are added; when the
      subject falls into a mastery bucket, that bucket goes up by one and the
      badges are re-evaluated; when it falls into none, nothing but the points
      changes (the badge checks sit inside the same branch). */
  function Scored(p: Progress, q: Quest): (r: Progress)
    ensures r.points == p.points + q.points
    ensures forall s :: Count(r.mastery, s) == Count(p.mastery, s) + (if SubjectKey(q.subject) == Some(s) then 1 else 0)
    ensures |p.badges| <= |r.badges| && r.badges[..|p.badges|] == p.badges
    ensures SubjectKey(q.subject).None? ==> r.badges == p.badges
    ensures SubjectKey(q.subject).Some? ==>
      var key := SubjectKey(q.subject).value;
      forall a :: a in r.badges <==>
        a in p.badges || (a == BrainiacAward && r.points >= BrainiacThreshold)
        || (a == MasteryAward(key) && Count(r.mastery, key) == MasteryThreshold)
    ensures SubjectKey(q.subject).Some? && r.points >= BrainiacThreshold && BrainiacAward !in p.badges ==>
      r.badges[|p.badges|] == BrainiacAward
  {
    var newPoints := p.points + q.points;
    match SubjectKey(q.subject)
    case None => p.(points := newPoints)
    case Some(key) =>
      var newCount := Count(p.mastery, key) + 1;
      Progress(newPoints, Bump(p.mastery, key), Awarded(p.badges, newPoints, key, newCount))
  }

  /** What holds of every progress the explorer can reach: Explorer is still the
      first badge, no badge is held twice, and each mastery badge is held exactly
      when its subject has 3 or more correct answers. */
  predicate ProgressValid(p: Progress) {
    && |p.badges| > 0 && p.badges[0] == ExplorerAward
    && NoDuplicates(p.badges)
    && (forall s :: MasteryAward(s) in p.badges <==> Count(p.mastery, s) >= MasteryThreshold)
  }

  /** The start: 120 points, no correct answers, only the Explorer badge. */
  lemma InitialProgressValid()
    ensures ProgressValid(InitialProgress)
    ensures Badges(InitialProgress.badges)[0].name == "Explorer"
  {
  }

  /** In every reachable progress the badge records shown carry distinct ids. */
  lemma ValidProgressDistinctIds(p: Progress)
    requires ProgressValid(p)
    ensures DistinctIds(Badges(p.badges))
    ensures Badges(p.badges)[0].id == "1"
  {
    DistinctAwardsDistinctIds(p.badges);
  }

  /** Scoring keeps every part of the invariant. */
  lemma ScoredKeepsValid(p: Progress, q: Quest)
    requires ProgressValid(p)
    ensures ProgressValid(Scored(p, q))
  {
    var r := Scored(p, q);
    assert r.badges[0] == r.badges[..|p.badges|][0];
  }

  /** A correct answer on a subject that falls into no bucket changes the points
      and nothing else: no mastery count moves and no badge is awarded, not even
      Brainiac when the new total reaches 200. */
  lemma UnmatchedSubjectOnlyAddsPoints(p: Progress, q: Quest)
    requires SubjectKey(q.subject) == None
    ensures Scored(p, q) == p.(points := p.points + q.points)
    ensures BrainiacAward in Scored(p, q).badges <==> BrainiacAward in p.badges
  {
  }

  /** A correct answer on a subject that falls into a bucket and lifts the total
      to 200 or more leaves Brainiac among the badges. */
  lemma MatchedSubjectEarnsBrainiac(p: Progress, q: Quest)
    requires SubjectKey(q.subject).Some? && p.points + q.points >= BrainiacThreshold
    ensures BrainiacAward in Scored(p, q).badges
  {
  }

  /** The third correct answer in a subject unlocks that subject's badge, and a
      correct answer never takes a badge away. */
  lemma ThirdAnswerUnlocksMasteryBadge(p: Progress, q: Quest, key: Subject)
    requires SubjectKey(q.subject) == Some(key) && Count(p.mastery, key) == MasteryThreshold - 1
    ensures MasteryAward(key) in Scored(p, q).badges
    ensures Count(Scored(p, q).mastery, key) == MasteryThreshold
  {
  }

  // ---------------------------------------------------------------------------
  // The leaderboard

  datatype Entry = Entry(name: string, points: int)

  predicate SortedDesc(s: seq<Entry>) {
    forall i, j :: 0 <= i < j < |s| ==> s[i].points >= s[j].points
  }

  /** Inserts `x` in front of the first entry with no more points than it, so that
      it stays ahead of the equal entries that came after it in the input. */
  function InsertDesc(x: Entry, s: seq<Entry>): (r: seq<Entry>)
    ensures |r| == |s| + 1
  {
    if s == [] || s[0].points <= x.points then [x] + s
    else [s[0]] + InsertDesc(x, s[1..])
  }

  /** Inserting adds `x` and keeps every entry of `s`. */
  lemma {:induction false} InsertDescPermutes(x: Entry, s: seq<Entry>)
    ensures multiset(InsertDesc(x, s)) == multiset(s) + multiset{x}
  {
    if s != [] && s[0].points > x.points {
      InsertDescPermutes(x, s[1..]);
      assert s == [s[0]] + s[1..];
    }
  }

  /** Every entry of `InsertDesc(x, s)` is `x` or an entry of `s`, and the result
      is sorted when `s` is. */
  lemma {:induction false} InsertDescSorted(x: Entry, s: seq<Entry>)
    requires SortedDesc(s)
    ensures SortedDesc(InsertDesc(x, s))
    ensures forall e :: e in InsertDesc(x, s) ==> e == x || e in s
  {
    if s != [] && s[0].points > x.points {
      InsertDescSorted(x, s[1..]);
      var t := InsertDesc(x, s[1..]);
      var r := [s[0]] + t;
      forall j | 1 <= j < |r|
        ensures r[0].points >= r[j].points
      {
        assert r[j] in t;
      }
    }
  }

  /** A stable sort by points, highest first: `sort((a, b) => b.points - a.points)`.
      Each entry is inserted ahead of the equal entries that follow it, so equal
      entries keep their input order. The result is ordered highest first and
      holds exactly the entries of `s`. */
  function SortDesc(s: seq<Entry>): (r: seq<Entry>)
    ensures SortedDesc(r)
    ensures multiset(r) == multiset(s)
  {
    if s == [] then []
    else
      var t := SortDesc(s[1..]);
      InsertDescSorted(s[0], t);
      InsertDescPermutes(s[0], t);
      assert multiset(s) == multiset(s[1..]) + multiset{s[0]} by {
        assert s == [s[0]] + s[1..];
      }
      InsertDesc(s[0], t)
  }

  const Simba: Entry := Entry("Simba", 450)
  const Amani: Entry := Entry("Amani", 380)
  const Kofi: Entry := Entry("Kofi", 320)

  function You(points: int): Entry {
    Entry("You", points)
  }

  /** The leaderboard shown for a player with `points` points: the player and
      the three fixed classmates, highest first. */
  function Leaderboard(points: int): (r: seq<Entry>)
    ensures SortedDesc(r)
    ensures multiset(r) == multiset([Simba, You(points), Amani, Kofi])
  {
    SortDesc([Simba, You(points), Amani, Kofi])
  }

  lemma InsertAhead(x: Entry, s: seq<Entry>)
    requires s != [] && s[0].points <= x.points
    ensures InsertDesc(x, s) == [x] + s
  {
  }

  lemma InsertBehind(x: Entry, s: seq<Entry>)
    requires s != [] && s[0].points > x.points
    ensures InsertDesc(x, s) == [s[0]] + InsertDesc(x, s[1..])
  {
  }

  /** The leaderboard is Simba inserted into the sorted rest. */
  lemma LeaderboardUnfolds(points: int)
    ensures Leaderboard(points) == InsertDesc(Simba, InsertDesc(You(points), [Amani, Kofi]))
  {
    var s := [Simba, You(points), Amani, Kofi];
    assert s[1..] == [You(points), Amani, Kofi];
    assert s[1..][1..] == [Amani, Kofi];
    assert [Amani, Kofi][1..] == [Kofi];
    assert [Kofi][1..] == [];
    assert SortDesc([Kofi]) == [Kofi] by {
      assert SortDesc([Kofi]) == InsertDesc(Kofi, SortDesc([]));
    }
    assert SortDesc([Amani, Kofi]) == [Amani, Kofi] by {
      InsertAhead(Amani, [Kofi]);
    }
    assert SortDesc(s[1..]) == InsertDesc(You(points), SortDesc([Amani, Kofi]));
    assert SortDesc(s) == InsertDesc(Simba, SortDesc(s[1..]));
  }

  /** Where the player lands: ties are broken by the order of the list, so the
      player ranks behind Simba at 450 but ahead of Amani at 380 and of Kofi at 320. */
  lemma LeaderboardPlacement(points: int)
    ensures points > 450 ==> Leaderboard(points) == [You(points), Simba, Amani, Kofi]
    ensures 380 <= points <= 450 ==> Leaderboard(points) == [Simba, You(points), Amani, Kofi]
    ensures 320 <= points < 380 ==> Leaderboard(points) == [Simba, Amani, You(points), Kofi]
    ensures points < 320 ==> Leaderboard(points) == [Simba, Amani, Kofi, You(points)]
  {
    LeaderboardUnfolds(points);
    InsertedPlacement(points);
  }

  /** The placement, on the insertions the sort performs. */
  lemma InsertedPlacement(points: int)
    ensures var b := InsertDesc(Simba, InsertDesc(You(points), [Amani, Kofi]));
      && (points > 450 ==> b == [You(points), Simba, Amani, Kofi])
      && (380 <= points <= 450 ==> b == [Simba, You(points), Amani, Kofi])
      && (320 <= points < 380 ==> b == [Simba, Amani, You(points), Kofi])
      && (points < 320 ==> b == [Simba, Amani, Kofi, You(points)])
  {
    var you := You(points);
    if points >= 380 {
      InsertAhead(you, [Amani, Kofi]);
      if points > 450 {
        InsertBehind(Simba, [you, Amani, Kofi]);
        InsertAhead(Simba, [Amani, Kofi]);
        assert [you, Amani, Kofi][1..] == [Amani, Kofi];
      } else {
        InsertAhead(Simba, [you, Amani, Kofi]);
      }
    } else {
      InsertBehind(you, [Amani, Kofi]);
      assert [Amani, Kofi][1..] == [Kofi];
      if points >= 320 {
        InsertAhead(you, [Kofi]);
        assert InsertDesc(you, [Amani, Kofi]) == [Amani, you, Kofi];
        InsertAhead(Simba, [Amani, you, Kofi]);
      } else {
        InsertBehind(you, [Kofi]);
        assert [Kofi][1..] == [];
        assert InsertDesc(you, [Amani, Kofi]) == [Amani, Kofi, you];
        InsertAhead(Simba, [Amani, Kofi, you]);
      }
    }
  }

  // ---------------------------------------------------------------------------
  // The component

  datatype Outcome = Correct | Incorrect

  /** The component's state. The handlers that wait for generated content take
      the request layer's generator as a parameter: the component passes
      `s => Gemini.GenerateQuest(s, ai, parse)` and
      `s => Gemini.GenerateKidActivity(s, ai, parse)` for its model `ai` and
      parser `parse`. */
  class Session {
    var points: int
    var mastery: Mastery
    /** The badges held, in the order earned; the records shown are `Badges(badges)`. */
    var badges: seq<Award>
    var quest: Option<Quest>
    var selectedOption: Option<int>
    var questResult: Option<Outcome>
    var activity: Option<Activity>
    /** One status shared by the activity generator and the quest loader. */
    var status: LoadingState

    function CurrentProgress(): Progress
      reads this
    {
      Progress(points, mastery, badges)
    }

    /** The badge invariant, and: an answer is recorded together with the option
        chosen, only while a quest is loaded, and is correct exactly when that
        option is the quest's correct index. */
    predicate Valid()
      reads this
    {
      && ProgressValid(CurrentProgress())
      && (questResult.None? <==> selectedOption.None?)
      && (questResult.Some? ==>
            quest.Some? && (questResult == Some(Correct) <==> selectedOption.value == quest.value.correctIndex))
    }

    /** 120 points to start with, no correct answers yet, only the Explorer badge. */
    constructor ()
      ensures Valid()
      ensures CurrentProgress() == InitialProgress
      ensures quest == None && selectedOption == None && questResult == None
      ensures activity == None && status == Idle
    {
      points := 120;
      mastery := Mastery(0, 0, 0);
      badges := [ExplorerAward];
      quest := None;
      selectedOption := None;
      questResult := None;
      activity := None;
      status := Idle;
      InitialProgressValid();
    }

    /** Answering option `index` of the loaded quest. Nothing happens once an
        answer is recorded or while no quest is loaded. A correct answer scores;
        a wrong one (including any index the quest's options do not have) is
        recorded as incorrect and changes nothing else. */
    method HandleAnswer(index: int)
      requires Valid()
      modifies this
      ensures Valid()
      ensures old(questResult).Some? || old(quest).None? ==>
        CurrentProgress() == old(CurrentProgress()) && questResult == old(questResult) && selectedOption == old(selectedOption)
      ensures old(questResult).None? && old(quest).Some? ==>
        && selectedOption == Some(index)
        && (index == old(quest).value.correctIndex ==>
              questResult == Some(Correct) && CurrentProgress() == Scored(old(CurrentProgress()), old(quest).value))
        && (index != old(quest).value.correctIndex ==>
              questResult == Some(Incorrect) && CurrentProgress() == old(CurrentProgress()))
      ensures quest == old(quest) && activity == old(activity) && status == old(status)
    {
      if questResult.Some? || quest.None? {
        return;
      }
      var q := quest.value;
      selectedOption := Some(index);
      if index == q.correctIndex {
        questResult := Some(Correct);
        ScoredKeepsValid(CurrentProgress(), q);
        var next := Scored(CurrentProgress(), q);
        points, mastery, badges := next.points, next.mastery, next.badges;
      } else {
        questResult := Some(Incorrect);
      }
    }

    /** Loading a new quest on `subject`: the old quest, answer and choice are
        cleared first; the new quest is shown only if it arrives. The points,
        mastery and badges are never touched. */
    method HandleStartQuest(subject: string, generateQuest: string -> Result<Quest, Gemini.Error>)
      requires Valid()
      modifies this
      ensures Valid()
      ensures CurrentProgress() == old(CurrentProgress()) && activity == old(activity)
      ensures questResult == None && selectedOption == None
      ensures var r := generateQuest(subject);
        && (r.Success? ==> quest == Some(r.value) && status == SuccessState)
        && (r.Failure? ==> quest == None && status == ErrorState)
    {
      status := Loading;
      quest := None;
      questResult := None;
      selectedOption := None;
      var r := generateQuest(subject);
      if r.Success? {
        quest := Some(r.value);
        status := SuccessState;
      } else {
        status := ErrorState;
      }
    }

    /** Generating an activity for `interest`. A blank interest (nothing but white
        space) is ignored; otherwise the new activity replaces the old one on
        success and the old one stays on failure. */
    method HandleExplore(interest: string, generateKidActivity: string -> Result<Activity, Gemini.Error>)
      requires Valid()
      modifies this
      ensures Valid()
      ensures CurrentProgress() == old(CurrentProgress()) && quest == old(quest)
      ensures questResult == old(questResult) && selectedOption == old(selectedOption)
      ensures Trim(interest) == [] ==> activity == old(activity) && status == old(status)
      ensures Trim(interest) != [] ==> var r := generateKidActivity(interest);
        && (r.Success? ==> activity == Some(r.value) && status == SuccessState)
        && (r.Failure? ==> activity == old(activity) && status == ErrorState)
    {
      if Trim(interest) == [] {
        return;
      }
      status := Loading;
      var r := generateKidActivity(interest);
      if r.Success? {
        activity := Some(r.value);
        status := SuccessState;
      } else {
        status := ErrorState;
      }
    }
  }
}
