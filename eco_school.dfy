/**
 * The EcoDev School page: a five-module course with a module-unlock gate, a
 * lesson viewer that steps through a module's lessons, quizzes, and the
 * counters and achievements derived from the stored progress.
 */
module EcoDevSchool {
  import opened Wrappers
  import opened JsText
  import opened JsCollections
  import opened EcoDevProgress

  /** A single-question quiz; its options are not modelled, only how many there are and which is right. */
  datatype Quiz = Quiz(correctIndex: nat, optionCount: nat)

  /** A lesson, reduced to whether it carries a quiz (title and text are not modelled). */
  datatype Lesson = Lesson(quiz: Option<Quiz>)

  function Asks(correctIndex: nat): Lesson {
    Lesson(Some(Quiz(correctIndex, 4)))
  }

  const Reading: Lesson := Lesson(None)

  /** The lesson lists of the five modules: there are no others, and every quiz's right answer is one of its options. */
  function Lessons(moduleId: int): (r: Option<seq<Lesson>>)
    ensures r.Some? <==> 1 <= moduleId <= 5
    ensures r.Some? ==> forall l :: l in r.value && l.quiz.Some? ==> l.quiz.value.correctIndex < l.quiz.value.optionCount
  {
    if moduleId == 1 then Some([Asks(1), Asks(2), Asks(1), Reading])
    else if moduleId == 2 then Some([Asks(2), Asks(1), Asks(2), Asks(1), Reading])
    else if moduleId == 3 then Some([Asks(1), Asks(2), Asks(1), Asks(3), Reading, Reading])
    else if moduleId == 4 then Some([Asks(3), Asks(1), Asks(2), Asks(2)])
    else if moduleId == 5 then Some([Asks(1), Asks(2), Asks(1), Asks(2), Reading, Reading])
    else None
  }

  /** The length of a module's real lesson list, 0 for an unknown module. */
  function LessonCount(moduleId: int): (n: nat)
    ensures n == if Lessons(moduleId).Some? then |Lessons(moduleId).value| else 0
  {
    if moduleId == 1 then 4
    else if moduleId == 2 then 5
    else if moduleId == 3 then 6
    else if moduleId == 4 then 4
    else if moduleId == 5 then 6
    else 0
  }

  /** The lesson count the module catalogue shows on each card. */
  function CatalogueLessons(moduleId: int): nat {
    if moduleId == 1 then 4
    else if moduleId == 2 then 5
    else if moduleId == 3 then 6
    else if moduleId == 4 then 4
    else if moduleId == 5 then 7
    else 0
  }

  /**
   * Every module has at least four lessons, and the catalogue count is the real
   * one except for module 5, whose card says 7 while the module has 6 lessons.
   */
  lemma {:induction false} CourseShape(m: int)
    ensures Lessons(m).Some? ==> LessonCount(m) >= 4
    ensures 1 <= m <= 4 ==> CatalogueLessons(m) == LessonCount(m)
    ensures CatalogueLessons(5) == 7 && LessonCount(5) == 6
  {
  }

  // ---------------------------------------------------------------------------
  // Derived values over the progress map

  /** Module 1 is always open; any other module opens once its predecessor is completed. */
  function IsModuleUnlocked(p: ProgressMap, moduleId: int): (open: bool)
    ensures moduleId == 1 ==> open
    ensures moduleId != 1 ==> (open <==> IsModuleCompleted(p, moduleId - 1))
  {
    moduleId == 1 || (moduleId - 1 in p && p[moduleId - 1].completed)
  }

  /** A module counts as completed when its record says so; a missing record means not completed. */
  function IsModuleCompleted(p: ProgressMap, moduleId: int): (done: bool)
    ensures moduleId !in p ==> !done
    ensures moduleId in p ==> (done <==> p[moduleId].completed)
  {
    moduleId in p && p[moduleId].completed
  }

  lemma {:induction false} NonEmptyHasKey(p: ProgressMap)
    requires |p| != 0
    ensures exists k :: k in p
  {
    if forall k :: k !in p {
      assert false;
    }
  }

  /**
   * `reduce` of the completed-lesson list lengths over the map's values (order
   * does not matter for a sum); no record's lessons exceed the total.
   */
  ghost function TotalLessonsCompleted(p: ProgressMap): (total: nat)
    ensures forall k :: k in p ==> |p[k].completedLessons| <= total
    decreases |p|
  {
    if |p| == 0 then 0
    else
      var k := SomeKey(p);
      var rest := p - {k};
      assert forall j :: j in p && j != k ==> j in rest && rest[j] == p[j];
      |p[k].completedLessons| + TotalLessonsCompleted(rest)
  }

  /** An arbitrary key of a non-empty map. */
  ghost function SomeKey(p: ProgressMap): (k: int)
    requires |p| != 0
    ensures k in p
  {
    NonEmptyHasKey(p);
    var k :| k in p;
    k
  }

  /** The number of records whose completed flag is set, at most the number of records. */
  function TotalModulesCompleted(p: ProgressMap): (total: nat)
    ensures total <= |p|
  {
    var done := set k | k in p && p[k].completed;
    SubsetCard(done, p.Keys);
    |done|
  }

  /** The sum can be taken apart at any key. */
  lemma {:induction false} TotalLessonsRemove(p: ProgressMap, k: int)
    requires k in p
    ensures TotalLessonsCompleted(p) == |p[k].completedLessons| + TotalLessonsCompleted(p - {k})
    decreases |p|
  {
    var j := SomeKey(p);
    if j != k {
      TotalLessonsRemove(p - {j}, k);
      TotalLessonsRemove(p - {k}, j);
      assert p - {j} - {k} == p - {k} - {j};
    }
  }

  /** At least one lesson is counted exactly when some record has a non-empty lesson list. */
  lemma {:induction false} SomeLessonCompleted(p: ProgressMap)
    ensures TotalLessonsCompleted(p) >= 1 <==> exists k :: k in p && |p[k].completedLessons| > 0
    decreases |p|
  {
    if |p| != 0 {
      NonEmptyHasKey(p);
      var k :| k in p;
      TotalLessonsRemove(p, k);
      SomeLessonCompleted(p - {k});
      if exists j :: j in p && |p[j].completedLessons| > 0 {
        var j :| j in p && |p[j].completedLessons| > 0;
        if j != k {
          assert j in p - {k};
        }
      }
    }
  }

  /** The progress map speaks only of the course's five modules. */
  predicate OnlyCourseModules(p: ProgressMap) {
    forall k :: k in p ==> 1 <= k <= 5
  }

  /** With records for course modules only, five completed records means every module is completed. */
  lemma {:induction false} AllModulesCompleted(p: ProgressMap)
    requires OnlyCourseModules(p)
    ensures TotalModulesCompleted(p) >= 5 <==> forall m :: 1 <= m <= 5 ==> IsModuleCompleted(p, m)
  {
    var done := CompletedModules(p);
    var course := CourseModules();
    if |done| >= 5 {
      SubsetFull(done, course);
    }
    if forall m :: 1 <= m <= 5 ==> IsModuleCompleted(p, m) {
      SubsetCard(course, done);
    }
  }

  /** The identifiers of the modules whose record says completed. */
  function CompletedModules(p: ProgressMap): (done: set<int>)
    requires OnlyCourseModules(p)
    ensures done <= CourseModules()
    ensures |done| == TotalModulesCompleted(p)
    ensures forall m :: m in done <==> IsModuleCompleted(p, m)
  {
    set k | k in p && p[k].completed
  }

  /** The five course module identifiers. */
  function CourseModules(): (course: set<int>)
    ensures forall m :: m in course <==> 1 <= m <= 5
    ensures |course| == 5
  {
    RangeCard(6);
    Range(6) - {0}
  }

  const FirstLesson := 0
  const CarbonCutter := 6
  const EcoDeveloper := 7

  /**
   * The eight achievement flags in display order: First Lesson, the five module
   * badges (Green Beginner, Media Master, Code Optimizer, Green Hoster,
   * Performance Pro), Carbon Cutter and Eco Developer.
   */
  ghost function EarnedAchievements(p: ProgressMap): (earned: seq<bool>)
    ensures |earned| == 8
  {
    [ TotalLessonsCompleted(p) >= 1,
      IsModuleCompleted(p, 1),
      IsModuleCompleted(p, 2),
      IsModuleCompleted(p, 3),
      IsModuleCompleted(p, 4),
      IsModuleCompleted(p, 5),
      false,
      TotalModulesCompleted(p) >= 5 ]
  }

  /**
   * What each achievement means: First Lesson once any lesson is recorded, module
   * badge m once module m is completed, Carbon Cutter never, and Eco Developer
   * (for a map of course modules) once all five modules are completed.
   */
  lemma {:induction false} AchievementsMeaning(p: ProgressMap)
    ensures EarnedAchievements(p)[FirstLesson] <==> exists k :: k in p && |p[k].completedLessons| > 0
    ensures forall m :: 1 <= m <= 5 ==> (EarnedAchievements(p)[m] <==> IsModuleCompleted(p, m))
    ensures !EarnedAchievements(p)[CarbonCutter]
    ensures OnlyCourseModules(p) ==>
      (EarnedAchievements(p)[EcoDeveloper] <==> forall m :: 1 <= m <= 5 ==> IsModuleCompleted(p, m))
  {
    SomeLessonCompleted(p);
    if OnlyCourseModules(p) {
      AllModulesCompleted(p);
    }
  }

  // ---------------------------------------------------------------------------
  // Lesson bookkeeping

  /** The quiz-score key `${moduleId}-${lesson}`: split at its dash, it gives back both numbers' decimal text. */
  function QuizKey(moduleId: nat, lesson: nat): (key: string)
    ensures Split(key, '-') == [NatToString(moduleId), NatToString(lesson)]
  {
    var a, b := NatToString(moduleId), NatToString(lesson);
    var key := a + "-" + b;
    IndexOfAfter(a, '-', b);
    assert key[..|a|] == a && key[|a| + 1..] == b;
    key
  }

  /** Different (module, lesson) pairs get different keys. */
  lemma {:induction false} QuizKeyInjective(m1: nat, l1: nat, m2: nat, l2: nat)
    requires QuizKey(m1, l1) == QuizKey(m2, l2)
    ensures m1 == m2 && l1 == l2
  {
    var parts := Split(QuizKey(m1, l1), '-');
    assert NatToString(m1) == parts[0] == NatToString(m2);
    assert NatToString(l1) == parts[1] == NatToString(l2);
    NatToStringInjective(m1, m2);
    NatToStringInjective(l1, l2);
  }

  /** Every recorded lesson is a lesson index of module m. */
  predicate LessonsInRange(m: int, lessons: seq<int>) {
    forall l :: l in lessons ==> 0 <= l < LessonCount(m)
  }

  /** Every stored record lists lesson indices of its own module only. */
  predicate RecordsInRange(p: ProgressMap) {
    forall k :: k in p ==> LessonsInRange(k, p[k].completedLessons)
  }

  /**
   * The record Next saves on lesson l of module m: l joins the completed
   * lessons, and the completed flag is recomputed from scratch as "on the last
   * lesson and at least as many completed lessons as the module has".
   */
  function NextRecord(m: int, l: int, completed: seq<int>, scores: map<string, int>): (r: ModuleProgress)
    requires Distinct(completed)
    ensures r.moduleId == m && r.quizScores == scores
    ensures r.completedLessons == Insert(completed, l)
  {
    var newCompleted := Insert(completed, l);
    ModuleProgress(m, newCompleted, scores, l >= LessonCount(m) - 1 && |newCompleted| >= LessonCount(m))
  }

  /**
   * For lessons within range, the saved flag is set exactly when Next is
   * pressed on the last lesson and every lesson of the module has been
   * completed.
   */
  lemma {:induction false} CompletedFlagMeaning(m: int, l: int, completed: seq<int>, scores: map<string, int>)
    requires Distinct(completed) && LessonsInRange(m, completed) && 0 <= l < LessonCount(m)
    ensures var r := NextRecord(m, l, completed, scores);
      r.completed <==> l == LessonCount(m) - 1 && forall i :: 0 <= i < LessonCount(m) ==> i in r.completedLessons
  {
    var r := NextRecord(m, l, completed, scores);
    assert Elements(r.completedLessons) == Elements(completed) + {l};
    assert forall x :: x in r.completedLessons ==> x in Elements(r.completedLessons);
    CoversRange(r.completedLessons, LessonCount(m));
  }

  /**
   * The completed flag is not sticky: Next on any lesson but the last saves
   * `completed = false`, even for a module completed before, and that locks the
   * module after it again.
   */
  lemma {:induction false} ReviewRelocks(p: ProgressMap, m: int, l: int, completed: seq<int>, scores: map<string, int>)
    requires Distinct(completed) && 0 <= l < LessonCount(m) - 1
    ensures !NextRecord(m, l, completed, scores).completed
    ensures !IsModuleUnlocked(Upsert(p, NextRecord(m, l, completed, scores)), m + 1)
  {
  }

  /**
   * A worked case with module 1 (four lessons): after lessons 0, 1 and 2 the
   * saved flag is still false; Next on lesson 3 saves it true.
   */
  lemma {:induction false} ModuleOneCompletesOnFourth(scores: map<string, int>)
    ensures !NextRecord(1, 2, [0, 1], scores).completed
    ensures NextRecord(1, 3, [0, 1, 2], scores).completed
    ensures NextRecord(1, 3, [0, 1, 2], scores).completedLessons == [0, 1, 2, 3]
  {
  }

  // ---------------------------------------------------------------------------
  // The page's state and its handlers

  /** Restoring a record keeps its lessons in range. */
  lemma {:induction false} DedupInRange(m: int, lessons: seq<int>)
    requires LessonsInRange(m, lessons)
    ensures LessonsInRange(m, Dedup(lessons))
  {
    assert forall x :: x in Dedup(lessons) ==> x in Elements(lessons);
  }

  /** The quiz of lesson l of module m, if that lesson exists and has one. */
  function QuizAt(m: int, l: int): Option<Quiz> {
    if Lessons(m).Some? && 0 <= l < |Lessons(m).value| then Lessons(m).value[l].quiz else None
  }

  class School {
    const store: ProgressStore
    var activeModule: Option<int>
    var currentLesson: int
    var completedLessons: seq<int>
    var quizAnswer: Option<int>
    var quizSubmitted: bool
    var quizScores: map<string, int>

    /** The cursor stays on a lesson of the open module, and the completed set has no repetitions. */
    ghost predicate Valid()
      reads this, store
    {
      && store.Valid()
      && currentLesson >= 0
      && Distinct(completedLessons)
      && (activeModule.Some? ==> 1 <= activeModule.value <= 5 && currentLesson < LessonCount(activeModule.value))
    }

    /** Lesson indices everywhere are indices of their own module. */
    ghost predicate InRange()
      reads this, store
    {
      && RecordsInRange(store.progress)
      && (activeModule.Some? ==> LessonsInRange(activeModule.value, completedLessons))
    }

    /**
     * The open module, if any, is one the unlock gate lets through. The page
     * keeps this because only an enabled Start/Review button opens a module.
     */
    ghost predicate OpenUnlocked()
      reads this, store
    {
      activeModule.Some? ==> IsModuleUnlocked(store.progress, activeModule.value)
    }

    /** The Start/Review button of a module card is enabled: the module has lessons and its predecessor is completed. */
    predicate StartEnabled(moduleId: int): (enabled: bool)
      reads store
      ensures enabled ==> 1 <= moduleId <= 5
      ensures enabled <==> Lessons(moduleId).Some? && (moduleId == 1 || IsModuleCompleted(store.progress, moduleId - 1))
    {
      IsModuleUnlocked(store.progress, moduleId) && Lessons(moduleId).Some?
    }

    /** The Next button is enabled: a lesson is open and its quiz, if any, has been submitted. */
    predicate NextEnabled(): (enabled: bool)
      reads this
      ensures enabled <==> activeModule.Some? && (QuizAt(activeModule.value, currentLesson).Some? ==> quizSubmitted)
    {
      activeModule.Some? && !(QuizAt(activeModule.value, currentLesson).Some? && !quizSubmitted)
    }

    constructor (store: ProgressStore)
      requires store.Valid()
      ensures Valid() && this.store == store
      ensures activeModule.None? && currentLesson == 0 && completedLessons == []
      ensures quizAnswer.None? && !quizSubmitted && quizScores == map[]
    {
      this.store := store;
      activeModule := None;
      currentLesson := 0;
      completedLessons := [];
      quizAnswer := None;
      quizSubmitted := false;
      quizScores := map[];
    }

    /**
     * `handleStartModule`: nothing for a module without lessons; otherwise open
     * it at lesson 0 and restore its completed lessons and quiz scores from the
     * stored record, or start empty.
     */
    method StartModule(moduleId: int)
      requires Valid()
      modifies this
      ensures Valid()
      ensures Lessons(moduleId).None? ==> unchanged(this)
      ensures Lessons(moduleId).Some? ==>
        && activeModule == Some(moduleId) && currentLesson == 0
        && completedLessons == Dedup(if moduleId in store.progress then store.progress[moduleId].completedLessons else [])
        && quizScores == (if moduleId in store.progress then store.progress[moduleId].quizScores else map[])
        && quizAnswer.None? && !quizSubmitted
      ensures Lessons(moduleId).Some? ==> (NextEnabled() <==> QuizAt(moduleId, 0).None?)
      ensures old(InRange()) ==> InRange()
      ensures old(StartEnabled(moduleId)) ==> OpenUnlocked()
    {
      if Lessons(moduleId).None? {
        return;
      }
      ghost var wasInRange := InRange();
      var saved := if moduleId in store.progress then Some(store.progress[moduleId]) else None;
      var restored := if saved.Some? then saved.value.completedLessons else [];
      var scores := if saved.Some? then saved.value.quizScores else map[];
      if wasInRange {
        DedupInRange(moduleId, restored);
      }
      Open(moduleId, Dedup(restored), scores);
    }

    /** Opens module m at its first lesson with the given completed lessons and scores, the quiz cleared. */
    method Open(m: int, lessons: seq<int>, scores: map<string, int>)
      requires Valid() && 1 <= m <= 5 && Distinct(lessons)
      modifies this
      ensures Valid()
      ensures activeModule == Some(m) && currentLesson == 0 && completedLessons == lessons
      ensures quizScores == scores && quizAnswer.None? && !quizSubmitted
    {
      activeModule := Some(m);
      currentLesson := 0;
      completedLessons := lessons;
      quizScores := scores;
      quizAnswer := None;
      quizSubmitted := false;
    }

    /**
     * `handleNextLesson`: record the current lesson as completed, save the
     * module's record when a user is signed in (`writeOk` is the store's
     * answer), then move to the next lesson or, on the last one, close the
     * module.
     */
    method NextLesson(writeOk: bool)
      requires Valid()
      modifies this, store`progress
      ensures Valid()
      ensures old(activeModule).None? ==> unchanged(this) && unchanged(store)
      ensures old(activeModule).Some? ==>
        var m := old(activeModule).value;
        var rec := NextRecord(m, old(currentLesson), old(completedLessons), old(quizScores));
        && completedLessons == rec.completedLessons
        && quizScores == old(quizScores)
        && store.progress == (if store.user.Some? && writeOk then Upsert(old(store.progress), rec) else old(store.progress))
        && (old(currentLesson) < LessonCount(m) - 1 ==>
              activeModule == Some(m) && currentLesson == old(currentLesson) + 1
              && quizAnswer.None? && !quizSubmitted && (NextEnabled() <==> QuizAt(m, currentLesson).None?))
        && (old(currentLesson) >= LessonCount(m) - 1 ==>
              activeModule.None? && currentLesson == old(currentLesson)
              && quizAnswer == old(quizAnswer) && quizSubmitted == old(quizSubmitted))
      ensures old(InRange()) ==> InRange()
      ensures old(OpenUnlocked()) ==> OpenUnlocked()
    {
      if activeModule.None? {
        return;
      }
      var m := activeModule.value;
      var len := LessonCount(m);
      var newCompleted := Insert(completedLessons, currentLesson);
      completedLessons := newCompleted;
      var isLast := currentLesson >= len - 1;
      var moduleComplete := isLast && |newCompleted| >= len;
      if store.user.Some? {
        store.SaveProgress(m, newCompleted, quizScores, moduleComplete, writeOk);
      }
      if !isLast {
        currentLesson := currentLesson + 1;
        quizAnswer := None;
        quizSubmitted := false;
      } else {
        activeModule := None;
      }
    }

    /** `handlePrevLesson`: step back one lesson, unless on the first. */
    method PrevLesson()
      requires Valid()
      modifies this
      ensures Valid()
      ensures old(currentLesson) == 0 ==> unchanged(this)
      ensures old(currentLesson) > 0 ==>
        && currentLesson == old(currentLesson) - 1 && quizAnswer.None? && !quizSubmitted
        && activeModule == old(activeModule) && completedLessons == old(completedLessons)
        && quizScores == old(quizScores)
      ensures old(InRange()) ==> InRange()
      ensures old(OpenUnlocked()) ==> OpenUnlocked()
    {
      if currentLesson > 0 {
        currentLesson := currentLesson - 1;
        quizAnswer := None;
        quizSubmitted := false;
      }
    }

    /** Clicking an option: it becomes the answer while the quiz is not yet submitted. */
    method SelectAnswer(option: int)
      requires Valid()
      modifies this`quizAnswer
      ensures Valid()
      ensures quizAnswer == if old(quizSubmitted) then old(quizAnswer) else Some(option)
      ensures old(OpenUnlocked()) ==> OpenUnlocked()
    {
      if !quizSubmitted {
        quizAnswer := Some(option);
      }
    }

    /**
     * `handleQuizSubmit`: mark the quiz submitted and, only when the lesson has
     * a quiz and the chosen option is the right one, record a score of 1 under
     * the lesson's key. A wrong answer leaves the scores as they were.
     */
    method SubmitQuiz()
      requires Valid()
      modifies this`quizSubmitted, this`quizScores
      ensures Valid()
      ensures old(activeModule).None? ==> unchanged(this)
      ensures old(activeModule).Some? ==>
        var m := old(activeModule).value;
        var quiz := QuizAt(m, currentLesson);
        && quizSubmitted
        && quizScores == (if quiz.Some? && quizAnswer == Some(quiz.value.correctIndex)
                          then old(quizScores)[QuizKey(m, currentLesson) := 1]
                          else old(quizScores))
        && NextEnabled()
      ensures old(InRange()) ==> InRange()
      ensures old(OpenUnlocked()) ==> OpenUnlocked()
    {
      if activeModule.None? {
        return;
      }
      var m := activeModule.value;
      quizSubmitted := true;
      var quiz := QuizAt(m, currentLesson);
      if quiz.Some? && quizAnswer == Some(quiz.value.correctIndex) {
        quizScores := quizScores[QuizKey(m, currentLesson) := 1];
      }
    }

    /** The "Back to Modules" button: close the lesson view. */
    method BackToModules()
      requires Valid()
      modifies this`activeModule
      ensures Valid() && activeModule.None?
      ensures old(InRange()) ==> InRange()
      ensures old(OpenUnlocked()) ==> OpenUnlocked()
    {
      activeModule := None;
    }
  }
}
