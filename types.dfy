/** The records shared by the request layer and the two components (types.ts),
    plus the Option and Result wrappers used for missing values and errors. */
module Types {

  datatype Option<+T> = None | Some(value: T)

  datatype Result<+T, +E> = Success(value: T) | Failure(error: E)

  /** A generated hands-on activity. */
  datatype Activity = Activity(title: string, description: string, materials: seq<string>, duration: string)

  /** One career suggestion; `category` is free text such as "Green Economy" or "Emerging Tech". */
  datatype CareerPath = CareerPath(
    title: string,
    category: string,
    description: string,
    requiredSubjects: seq<string>,
    potentialJobs: seq<string>,
    tvetOptions: seq<string>,
    universityPrograms: seq<string>)

  /** One senior-school track recommendation; the fit score is nominally 1-100 but never checked. */
  datatype PathwayRecommendation = PathwayRecommendation(
    pathwayName: string, fitScore: int, reasoning: string, recommendedClubs: seq<string>)

  /** A quiz question. Nothing checks that `correctIndex` indexes into `options`
      or that `points` is positive: the values are whatever the model returned. */
  datatype Quest = Quest(
    subject: string,
    question: string,
    options: seq<string>,
    correctIndex: int,
    explanation: string,
    points: int)

  datatype Badge = Badge(id: string, name: string, icon: string, description: string)

  datatype Mentor = Mentor(
    id: string, name: string, role: string, company: string, location: string,
    bio: string, expertise: seq<string>)

  /** No element occurs twice. */
  predicate NoDuplicates<T(==)>(s: seq<T>) {
    forall i, j :: 0 <= i < j < |s| ==> s[i] != s[j]
  }

  /** Status of one request surface. */
  datatype LoadingState = Idle | Loading | SuccessState | ErrorState
}
