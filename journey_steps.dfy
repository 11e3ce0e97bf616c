/**
 * The "journey structure" of the journey detail page: a journey's loosely typed `courses`
 * and `journeys` columns are read as arrays and expanded into one numbered list of step
 * records, the course steps first and the sub-journey steps after them.
 */
module JourneySteps {
  import opened JsValue
  import opened Wrappers

  /**
   * `getCoursesArray` and `getJourneysArray` (the two have the same body): the value itself
   * when it is an array, the empty list for null, undefined or any other value.
   */
  function AsArray(v: Json): (r: seq<Json>)
    ensures v.Arr? ==> r == v.items
    ensures !v.Arr? ==> r == []
  {
    if !Truthy(v) then []
    else if v.Arr? then v.items
    else []
  }

  /** The `type` of a step record: "Curso" or "Jornada". */
  datatype StepType = Curso | Jornada

  /**
   * The step record the page hands to each step item. Fields produced by `x || default`
   * keep the JavaScript value they were given. `stepsCompleted` and `totalSteps` are
   * set only for sub-journey steps.
   */
  datatype Step = Step(
    id: Json,
    number: int,
    title: Json,
    description: Json,
    stepType: StepType,
    lessons: Json,
    duration: string,
    progress: int,
    stepsCompleted: Option<int>,
    totalSteps: Option<Json>)

  /** `${value}min` when the duration is truthy, otherwise the fixed default label. */
  function DurationLabel(value: Json, default: string): string {
    if Truthy(value) then ToStr(value) + "min" else default
  }

  /** The record built for the course at position `index` of the courses array. */
  function CourseStep(course: Json, index: nat): (r: Step)
    ensures r.number == index + 1 && r.stepType == Curso
    ensures r.progress == 0 && r.lessons == Num(10) && r.stepsCompleted.None? && r.totalSteps.None?
    ensures Truthy(r.id) && Truthy(r.title)
    ensures r.id == Str("course-" + Decimal(index)) <== !Truthy(Get(course, "id"))
    ensures r.duration == "30min" <== !Truthy(Get(course, "duration"))
  {
    Step(
      id := Or(Get(course, "id"), Str("course-" + Decimal(index))),
      number := index + 1,
      title := Or(Get(course, "title"), Or(Get(course, "nome"), Str("Curso sem título"))),
      description := Or(Get(course, "description"), Or(Get(course, "descricao"), Str(""))),
      stepType := Curso,
      lessons := Num(10),
      duration := DurationLabel(Get(course, "duration"), "30min"),
      progress := 0,
      stepsCompleted := None,
      totalSteps := None)
  }

  /** The record built for the sub-journey at position `index`, numbered after `courseCount` course steps. */
  function SubJourneyStep(sub: Json, index: nat, courseCount: nat): (r: Step)
    ensures r.number == courseCount + index + 1 && r.stepType == Jornada
    ensures r.progress == 0 && r.stepsCompleted == Some(0)
    ensures r.totalSteps.Some? && Truthy(r.totalSteps.value) && Truthy(r.lessons)
    ensures Truthy(r.id) && Truthy(r.title)
    ensures r.id == Str("journey-" + Decimal(index)) <== !Truthy(Get(sub, "id"))
    ensures r.duration == "40min" <== !Truthy(Get(sub, "duration"))
  {
    Step(
      id := Or(Get(sub, "id"), Str("journey-" + Decimal(index))),
      number := courseCount + index + 1,
      title := Or(Get(sub, "title"), Str("Jornada sem título")),
      description := Or(Get(sub, "description"), Str("")),
      stepType := Jornada,
      lessons := Or(Get(sub, "number_steps"), Num(5)),
      duration := DurationLabel(Get(sub, "duration"), "40min"),
      progress := 0,
      stepsCompleted := Some(0),
      totalSteps := Some(Or(Get(sub, "number_steps"), Num(4))))
  }

  /**
   * The whole step list: the courses array mapped to course steps followed by the
   * journeys array mapped to sub-journey steps. Numbers run 1..n+m without gaps and
   * exactly the first n steps are course steps.
   */
  function ExpandSteps(courses: Json, journeys: Json): (r: seq<Step>)
    ensures |r| == |AsArray(courses)| + |AsArray(journeys)|
    ensures forall k :: 0 <= k < |r| ==> r[k].number == k + 1
    ensures forall k :: 0 <= k < |r| ==> (r[k].stepType == Curso <==> k < |AsArray(courses)|)
  {
    var cs, js := AsArray(courses), AsArray(journeys);
    seq(|cs|, i requires 0 <= i < |cs| => CourseStep(cs[i], i))
      + seq(|js|, j requires 0 <= j < |js| => SubJourneyStep(js[j], j, |cs|))
  }

  /** What the "journey structure" section shows. */
  datatype Structure =
    | NoContent                   // the "no content available" message
    | StepList(steps: seq<Step>)  // one step item per record
    | RenderError                 // reading a property of a null or undefined element throws

  /** Some element of the list is null or undefined. */
  predicate HasNullish(items: seq<Json>) {
    exists i :: 0 <= i < |items| && Nullish(items[i])
  }

  /** The structure section: the message when both arrays are empty, otherwise the expanded steps. */
  function JourneyStructure(courses: Json, journeys: Json): (r: Structure)
    ensures r.NoContent? <==> ExpandSteps(courses, journeys) == []
    ensures r.StepList? ==> r.steps == ExpandSteps(courses, journeys) && r.steps != []
    ensures r.RenderError? <==>
      ExpandSteps(courses, journeys) != [] && (HasNullish(AsArray(courses)) || HasNullish(AsArray(journeys)))
  {
    var cs, js := AsArray(courses), AsArray(journeys);
    if |cs| == 0 && |js| == 0 then NoContent
    else if HasNullish(cs) || HasNullish(js) then RenderError
    else StepList(ExpandSteps(courses, journeys))
  }

  /** Step `k < n` is the record of course `k`: its defaults, as the `||` chains give them. */
  lemma CourseStepDefaults(courses: Json, journeys: Json, k: nat)
    requires k < |AsArray(courses)|
    ensures var c, s := AsArray(courses)[k], ExpandSteps(courses, journeys)[k];
      && s.stepType == Curso && s.progress == 0 && s.lessons == Num(10)
      && s.stepsCompleted.None? && s.totalSteps.None?
      && s.duration == (if Truthy(Get(c, "duration")) then ToStr(Get(c, "duration")) + "min" else "30min")
      && s.title == (if Truthy(Get(c, "title")) then Get(c, "title")
                     else if Truthy(Get(c, "nome")) then Get(c, "nome")
                     else Str("Curso sem título"))
      && s.id == (if Truthy(Get(c, "id")) then Get(c, "id") else Str("course-" + Decimal(k)))
  {
  }

  /** Step `n + j` is the record of sub-journey `j`: its defaults, as the `||` chains give them. */
  lemma SubJourneyStepDefaults(courses: Json, journeys: Json, j: nat)
    requires j < |AsArray(journeys)|
    ensures var n := |AsArray(courses)|;
      var sub, s := AsArray(journeys)[j], ExpandSteps(courses, journeys)[n + j];
      var count := Get(sub, "number_steps");
      && s.number == n + j + 1
      && s.stepType == Jornada && s.progress == 0 && s.stepsCompleted == Some(0)
      && s.totalSteps == Some(if Truthy(count) then count else Num(4))
      && s.lessons == (if Truthy(count) then count else Num(5))
      && s.duration == (if Truthy(Get(sub, "duration")) then ToStr(Get(sub, "duration")) + "min" else "40min")
      && s.title == (if Truthy(Get(sub, "title")) then Get(sub, "title") else Str("Jornada sem título"))
      && s.id == (if Truthy(Get(sub, "id")) then Get(sub, "id") else Str("journey-" + Decimal(j)))
  {
  }

  /**
   * The defaults make every step presentable: its id and title are truthy, its
   * duration label is non-empty and ends in "min", and only sub-journey steps carry
   * a step count.
   */
  lemma StepsAlwaysLabelled(courses: Json, journeys: Json, k: nat)
    requires k < |ExpandSteps(courses, journeys)|
    ensures var s := ExpandSteps(courses, journeys)[k];
      && Truthy(s.id) && Truthy(s.title)
      && |s.duration| >= 3 && s.duration[|s.duration| - 3..] == "min"
      && (s.totalSteps.Some? <==> s.stepType == Jornada)
      && (s.totalSteps.Some? ==> Truthy(s.totalSteps.value))
  {
    var n := |AsArray(courses)|;
    if k < n {
      CourseStepDefaults(courses, journeys, k);
    } else {
      SubJourneyStepDefaults(courses, journeys, k - n);
    }
  }

  /** A sub-journey declaring `number_steps: 0` falls back to both defaults: 4 total steps, 5 lessons. */
  lemma ZeroStepCountFallsBack(courses: Json, journeys: Json, j: nat)
    requires j < |AsArray(journeys)|
    requires Get(AsArray(journeys)[j], "number_steps") == Num(0)
    ensures var s := ExpandSteps(courses, journeys)[|AsArray(courses)| + j];
      s.totalSteps == Some(Num(4)) && s.lessons == Num(5)
  {
    SubJourneyStepDefaults(courses, journeys, j);
  }

  /** Two course steps and one sub-journey give three steps numbered 1, 2, 3; the first two are courses. */
  lemma TwoCoursesOneJourney(c1: Json, c2: Json, sub: Json)
    ensures var r := ExpandSteps(Arr([c1, c2]), Arr([sub]));
      && |r| == 3
      && r[0].number == 1 && r[1].number == 2 && r[2].number == 3
      && r[0].stepType == Curso && r[1].stepType == Curso && r[2].stepType == Jornada
  {
  }

  /** Two courses without a truthy id get different fallback ids, since their positions differ. */
  lemma FallbackIdsDistinct(courses: Json, journeys: Json, k1: nat, k2: nat)
    requires k1 < k2 < |AsArray(courses)|
    requires !Truthy(Get(AsArray(courses)[k1], "id")) && !Truthy(Get(AsArray(courses)[k2], "id"))
    ensures ExpandSteps(courses, journeys)[k1].id != ExpandSteps(courses, journeys)[k2].id
  {
    var r := ExpandSteps(courses, journeys);
    CourseStepDefaults(courses, journeys, k1);
    CourseStepDefaults(courses, journeys, k2);
    DecimalInjective(k1, k2);
    assert ("course-" + Decimal(k1))[7..] == Decimal(k1);
    assert ("course-" + Decimal(k2))[7..] == Decimal(k2);
  }
}
