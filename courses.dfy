/**
 * The courses page: the catalog of active courses, the student's enrollments
 * (`student_courses`), the "Discover" and "Saved" views computed from them, and the two
 * operations that write enrollments, save and bookmark toggle. The backend tables are
 * in-memory sequences; the outcome of each backend call and the id the backend gives a
 * new row are parameters.
 */
module Courses {
  import opened Wrappers
  import opened Seqs

  /** A row of the `courses` catalog table. */
  datatype Course = Course(
    id: string,
    nome: string,
    descricao: Option<string>,
    nivel: Option<string>,
    duration: int,
    primeira_aula: Option<string>,
    cover: Option<string>,
    logo_empresa: Option<string>,
    ativo: bool)

  /** A row of the `student_courses` table. */
  datatype EnrollmentRow = EnrollmentRow(
    id: string,
    aluno_id: string,
    curso_id: string,
    title: Option<string>,
    progresso_aluno: int,
    tempo_estudo: int,
    salvar_favorito: bool)

  /** A `student_courses` row as the page holds it, with its course embedded by the `courses (*)` join. */
  datatype StudentCourse = StudentCourse(
    id: string,
    aluno_id: string,
    curso_id: string,
    title: Option<string>,
    progresso_aluno: int,
    tempo_estudo: int,
    salvar_favorito: bool,
    courses: Option<Course>)

  // ---------------------------------------------------------------------------
  // The catalog: active courses ordered by name

  /** Lexicographic order of names, character by character. */
  predicate NameLe(a: string, b: string)
    decreases |a|
  {
    a == [] || (b != [] && (a[0] < b[0] || (a[0] == b[0] && NameLe(a[1..], b[1..]))))
  }

  lemma {:induction false} NameLeTotal(a: string, b: string)
    ensures NameLe(a, b) || NameLe(b, a)
    decreases |a|
  {
    if a != [] && b != [] && a[0] == b[0] {
      NameLeTotal(a[1..], b[1..]);
    }
  }

  lemma {:induction false} NameLeTransitive(a: string, b: string, c: string)
    requires NameLe(a, b) && NameLe(b, c)
    ensures NameLe(a, c)
    decreases |a|
  {
    if a != [] && a[0] == b[0] && b[0] == c[0] {
      NameLeTransitive(a[1..], b[1..], c[1..]);
    }
  }

  /** Each course's name is at most the next one's. */
  predicate SortedByName(s: seq<Course>) {
    forall i :: 0 < i < |s| ==> NameLe(s[i - 1].nome, s[i].nome)
  }

  function InsertByName(c: Course, s: seq<Course>): (r: seq<Course>)
    requires SortedByName(s)
    ensures SortedByName(r)
    ensures multiset(r) == multiset(s) + multiset{c}
    ensures r[0] == c || (s != [] && r[0] == s[0])
  {
    if s == [] then [c]
    else if NameLe(c.nome, s[0].nome) then [c] + s
    else
      NameLeTotal(c.nome, s[0].nome);
      var rest := InsertByName(c, s[1..]);
      assert s == [s[0]] + s[1..];
      [s[0]] + rest
  }

  /** `.order("nome")`: the same courses, ordered by name. */
  function SortByName(s: seq<Course>): (r: seq<Course>)
    ensures SortedByName(r)
    ensures multiset(r) == multiset(s)
  {
    if s == [] then []
    else
      assert s == [s[0]] + s[1..];
      InsertByName(s[0], SortByName(s[1..]))
  }

  /** Neighbouring order extends to every pair. */
  lemma {:induction false} SortedAllPairs(s: seq<Course>, i: nat, j: nat)
    requires SortedByName(s) && i < j < |s|
    ensures NameLe(s[i].nome, s[j].nome)
    decreases j - i
  {
    if i + 1 < j {
      SortedAllPairs(s, i + 1, j);
      NameLeTransitive(s[i].nome, s[i + 1].nome, s[j].nome);
    }
  }

  /** `from("courses").select("*").eq("ativo", true).order("nome")`. */
  function ActiveCatalog(table: seq<Course>): (r: seq<Course>)
    ensures SortedByName(r)
    ensures forall k :: 0 <= k < |r| ==> r[k].ativo && r[k] in table
    ensures forall k :: 0 <= k < |table| && table[k].ativo ==> table[k] in r
  {
    var active := Filter(table, (c: Course) => c.ativo);
    var r := SortByName(active);
    assert forall c :: c in r <==> c in active by {
      forall c ensures c in r <==> c in active {
        assert c in r <==> multiset(r)[c] > 0;
        assert c in active <==> multiset(active)[c] > 0;
      }
    }
    assert forall k :: 0 <= k < |r| ==> r[k].ativo && r[k] in table by {
      forall k | 0 <= k < |r| ensures r[k].ativo && r[k] in table {
        assert r[k] in r;
        assert multiset(active)[r[k]] > 0;
        var i :| 0 <= i < |active| && active[i] == r[k];
      }
    }
    r
  }

  /**
   * The Discover catalog holds exactly the active courses of the table, each as often as
   * the table has it, and is ordered by name.
   */
  lemma ActiveCatalogSpec(table: seq<Course>)
    ensures forall c: Course :: c in ActiveCatalog(table) <==> c in table && c.ativo
    ensures forall c: Course :: multiset(ActiveCatalog(table))[c] == if c.ativo then multiset(table)[c] else 0
    ensures forall i, j :: 0 <= i < j < |ActiveCatalog(table)| ==>
      NameLe(ActiveCatalog(table)[i].nome, ActiveCatalog(table)[j].nome)
  {
    var p := (c: Course) => c.ativo;
    var r := ActiveCatalog(table);
    forall c: Course
      ensures multiset(r)[c] == if c.ativo then multiset(table)[c] else 0
    {
      FilterMultiset(table, p, c);
    }
    forall i, j | 0 <= i < j < |r|
      ensures NameLe(r[i].nome, r[j].nome)
    {
      SortedAllPairs(r, i, j);
    }
  }

  // ---------------------------------------------------------------------------
  // The student's enrollments and the two views

  /** The embedded `courses (*)`: the catalog row the foreign key names, if there is one. */
  function CourseWithId(catalog: seq<Course>, id: string): (r: Option<Course>)
    ensures r.Some? ==> r.value in catalog && r.value.id == id
    ensures (exists i :: 0 <= i < |catalog| && catalog[i].id == id) ==> r.Some?
  {
    var f := Filter(catalog, (c: Course) => c.id == id);
    if f == [] then None else Some(f[0])
  }

  /** A row with its course embedded; every column of the row is kept. */
  function Join(row: EnrollmentRow, catalog: seq<Course>): (r: StudentCourse)
    ensures Row(r) == row
    ensures r.courses.Some? ==> r.courses.value in catalog && r.courses.value.id == row.curso_id
  {
    StudentCourse(row.id, row.aluno_id, row.curso_id, row.title, row.progresso_aluno,
                  row.tempo_estudo, row.salvar_favorito, CourseWithId(catalog, row.curso_id))
  }

  /** The table row a `StudentCourse` was read from: the record without its embedded course. */
  function Row(sc: StudentCourse): EnrollmentRow {
    EnrollmentRow(sc.id, sc.aluno_id, sc.curso_id, sc.title, sc.progresso_aluno, sc.tempo_estudo, sc.salvar_favorito)
  }

  /** `.some(sc => sc.curso_id === courseId)`: whether some record is for the course. */
  predicate Listed(scs: seq<StudentCourse>, courseId: string): (b: bool)
    ensures b <==> exists i :: 0 <= i < |scs| && scs[i].curso_id == courseId
  {
    scs != [] && (scs[0].curso_id == courseId || Listed(scs[1..], courseId))
  }

  /** `.find(sc => sc.curso_id === courseId)`: the first record for the course, if any. */
  function FindByCourse(scs: seq<StudentCourse>, courseId: string): (r: Option<StudentCourse>)
    ensures r.Some? <==> Listed(scs, courseId)
    ensures r.Some? ==> exists i :: 0 <= i < |scs| && scs[i] == r.value && r.value.curso_id == courseId
                                    && forall j :: 0 <= j < i ==> scs[j].curso_id != courseId
  {
    if scs == [] then None
    else if scs[0].curso_id == courseId then Some(scs[0])
    else
      var r := FindByCourse(scs[1..], courseId);
      assert r.Some? ==> exists i :: 0 <= i < |scs| && scs[i] == r.value && r.value.curso_id == courseId
                                      && forall j :: 0 <= j < i ==> scs[j].curso_id != courseId by {
        if r.Some? {
          var i :| 0 <= i < |scs[1..]| && scs[1..][i] == r.value && r.value.curso_id == courseId
                   && forall j :: 0 <= j < i ==> scs[1..][j].curso_id != courseId;
          assert scs[i + 1] == r.value;
          assert forall j :: 0 <= j < i + 1 ==> scs[j].curso_id != courseId by {
            forall j | 0 <= j < i + 1 ensures scs[j].curso_id != courseId {
              if j > 0 { assert scs[j] == scs[1..][j - 1]; }
            }
          }
        }
      }
      r
  }

  /** The table has an enrollment of `student` in `courseId`. */
  predicate Enrolled(rows: seq<EnrollmentRow>, student: string, courseId: string) {
    exists i :: 0 <= i < |rows| && rows[i].aluno_id == student && rows[i].curso_id == courseId
  }

  /**
   * `fetchStudentCourses`: the student's rows, in table order, each joined to its course.
   * With the embedded courses dropped the list is exactly the student's rows; it names a
   * course exactly when the table holds an enrollment of the student in it.
   */
  function StudentView(rows: seq<EnrollmentRow>, student: string, catalog: seq<Course>): (r: seq<StudentCourse>)
    ensures Map(r, Row) == Filter(rows, (row: EnrollmentRow) => row.aluno_id == student)
    ensures forall k :: 0 <= k < |r| ==> r[k].aluno_id == student
    ensures forall courseId :: Listed(r, courseId) <==> Enrolled(rows, student, courseId)
  {
    var mine := Filter(rows, (row: EnrollmentRow) => row.aluno_id == student);
    var r := Map(mine, (row: EnrollmentRow) => Join(row, catalog));
    assert Map(r, Row) == mine;
    assert forall courseId :: Enrolled(rows, student, courseId) ==> Listed(r, courseId) by {
      forall courseId | Enrolled(rows, student, courseId)
        ensures Listed(r, courseId)
      {
        var i :| 0 <= i < |rows| && rows[i].aluno_id == student && rows[i].curso_id == courseId;
        assert rows[i] in mine;
        var k :| 0 <= k < |mine| && mine[k] == rows[i];
        assert r[k].curso_id == courseId;
      }
    }
    r
  }

  /** `studentCourses.filter(sc => sc.salvar_favorito)`: the Saved view. */
  function Saved(scs: seq<StudentCourse>): (r: seq<StudentCourse>)
    ensures forall k :: 0 <= k < |r| ==> r[k].salvar_favorito && r[k] in scs
    ensures forall k :: 0 <= k < |scs| && scs[k].salvar_favorito ==> scs[k] in r
  {
    Filter(scs, Bookmarked)
  }

  predicate Bookmarked(sc: StudentCourse) {
    sc.salvar_favorito
  }

  /**
   * The Saved view keeps the enrollments' order and every occurrence of a bookmarked
   * record: it is the bookmarked sub-sequence, not merely a subset.
   */
  lemma SavedIsSubsequence(a: seq<StudentCourse>, b: seq<StudentCourse>, sc: StudentCourse)
    ensures Saved(a + b) == Saved(a) + Saved(b)
    ensures multiset(Saved(a))[sc] == if sc.salvar_favorito then multiset(a)[sc] else 0
  {
    FilterAppend(a, b, Bookmarked);
    FilterMultiset(a, Bookmarked, sc);
  }

  /**
   * After a refetch the Saved view is exactly the student's bookmarked rows, in table
   * order, each joined to its course.
   */
  lemma SavedReflectsTable(rows: seq<EnrollmentRow>, student: string, catalog: seq<Course>)
    ensures Saved(StudentView(rows, student, catalog))
         == Map(Filter(rows, (row: EnrollmentRow) => row.aluno_id == student && row.salvar_favorito),
                (row: EnrollmentRow) => Join(row, catalog))
  {
    var own := (row: EnrollmentRow) => row.aluno_id == student;
    var fav := (row: EnrollmentRow) => row.salvar_favorito;
    var both := (row: EnrollmentRow) => row.aluno_id == student && row.salvar_favorito;
    var join := (row: EnrollmentRow) => Join(row, catalog);
    var mine := Filter(rows, own);
    var view := StudentView(rows, student, catalog);
    ViewIsJoin(rows, student, catalog);
    assert view == Map(mine, join);
    FilterMap(mine, join, Bookmarked, fav);
    FilterFilter(rows, own, fav, both);
  }

  /** Proof helper for `SavedReflectsTable`: the student view is the student's rows mapped through the join. */
  lemma ViewIsJoin(rows: seq<EnrollmentRow>, student: string, catalog: seq<Course>)
    ensures StudentView(rows, student, catalog)
         == Map(Filter(rows, (row: EnrollmentRow) => row.aluno_id == student), (row: EnrollmentRow) => Join(row, catalog))
  {
    var mine := Filter(rows, (row: EnrollmentRow) => row.aluno_id == student);
    var view := StudentView(rows, student, catalog);
    var m := Map(view, Row);
    forall k | 0 <= k < |view|
      ensures view[k] == Join(mine[k], catalog)
    {
      assert m[k] == Row(view[k]);
    }
  }

  /** What a course card is given: the `id` prop and the `isBookmarked` prop. */
  datatype CourseCard = CourseCard(id: string, isBookmarked: bool)

  /**
   * The Discover tab: one card per catalog course, in catalog order. Its `isBookmarked`
   * prop is set when an enrollment for that course exists, whatever that enrollment's
   * bookmark flag says; the card draws no bookmark icon, as it gets no toggle handler.
   */
  function DiscoverCards(allCourses: seq<Course>, scs: seq<StudentCourse>): (r: seq<CourseCard>)
    ensures |r| == |allCourses|
    ensures forall k :: 0 <= k < |r| ==> r[k].id == allCourses[k].id
    ensures forall k :: 0 <= k < |r| ==> (r[k].isBookmarked <==> Listed(scs, allCourses[k].id))
    ensures forall k :: 0 <= k < |r| && Listed(Saved(scs), allCourses[k].id) ==> r[k].isBookmarked
  {
    seq(|allCourses|, k requires 0 <= k < |allCourses| =>
      CourseCard(allCourses[k].id, Listed(scs, allCourses[k].id)))
  }

  /** What the Saved tab renders. */
  datatype SavedTab =
    | NothingSaved                        // the "nothing saved yet" message
    | SavedList(cards: seq<CourseCard>)   // one card per saved enrollment
    | SavedRenderError                    // `sc.courses.nome` of a record without its course throws

  /** Some saved record came without its embedded course. */
  predicate MissingCourse(saved: seq<StudentCourse>) {
    exists k :: 0 <= k < |saved| && saved[k].courses.None?
  }

  /**
   * The Saved tab: the message when nothing is saved; otherwise one card per saved
   * enrollment, showing that record's flag, which is always set. Reading the name of a
   * record whose course is missing throws, and the page does not render.
   */
  function SavedCards(scs: seq<StudentCourse>): (r: SavedTab)
    ensures r.NothingSaved? <==> Saved(scs) == []
    ensures r.SavedRenderError? <==> Saved(scs) != [] && MissingCourse(Saved(scs))
    ensures r.SavedList? ==> |r.cards| == |Saved(scs)| > 0
    ensures r.SavedList? ==> forall k :: 0 <= k < |r.cards| ==> r.cards[k].id == Saved(scs)[k].id && r.cards[k].isBookmarked
  {
    var saved := Saved(scs);
    if saved == [] then NothingSaved
    else if MissingCourse(saved) then SavedRenderError
    else SavedList(seq(|saved|, k requires 0 <= k < |saved| => CourseCard(saved[k].id, saved[k].salvar_favorito)))
  }

  /**
   * When every course the student is enrolled in is in the catalog, the refetched Saved
   * tab always renders.
   */
  lemma SavedTabRendersWithCatalog(rows: seq<EnrollmentRow>, student: string, catalog: seq<Course>)
    requires forall k :: 0 <= k < |rows| && rows[k].aluno_id == student ==>
      exists i :: 0 <= i < |catalog| && catalog[i].id == rows[k].curso_id
    ensures !SavedCards(StudentView(rows, student, catalog)).SavedRenderError?
  {
    var view := StudentView(rows, student, catalog);
    var own := (row: EnrollmentRow) => row.aluno_id == student;
    ViewIsJoin(rows, student, catalog);
    forall k | 0 <= k < |view|
      ensures view[k].courses.Some?
    {
      var mine := Filter(rows, own);
      assert view[k] == Join(mine[k], catalog);
      assert mine[k] in rows;
    }
  }

  /**
   * A course whose enrollment was un-bookmarked is stuck: it leaves the Saved view, so no
   * card with a toggle remains for it, while the save guard behind Discover's button still
   * finds its enrollment, so saving it again does nothing. Discover's `isBookmarked` prop
   * stays set, though the card does not draw it.
   */
  lemma UnbookmarkedCourseStaysMarked(allCourses: seq<Course>, scs: seq<StudentCourse>, k: nat, i: nat)
    requires k < |allCourses| && i < |scs|
    requires scs[i].curso_id == allCourses[k].id && !scs[i].salvar_favorito
    requires forall j :: 0 <= j < |scs| && scs[j].curso_id == allCourses[k].id ==> j == i
    ensures DiscoverCards(allCourses, scs)[k].isBookmarked
    ensures FindByCourse(scs, allCourses[k].id).Some?
    ensures !Listed(Saved(scs), allCourses[k].id)
  {
    assert Listed(scs, allCourses[k].id);
  }

  // ---------------------------------------------------------------------------
  // Writes

  predicate IdTaken(rows: seq<EnrollmentRow>, id: string) {
    exists i :: 0 <= i < |rows| && rows[i].id == id
  }

  /** `id` is the primary key of `student_courses`. */
  predicate IdsUnique(rows: seq<EnrollmentRow>) {
    forall i, j :: 0 <= i < j < |rows| ==> rows[i].id != rows[j].id
  }

  /** At most one enrollment per student and course. */
  predicate OnePerCourse(rows: seq<EnrollmentRow>) {
    forall i, j :: 0 <= i < j < |rows| && rows[i].aluno_id == rows[j].aluno_id ==> rows[i].curso_id != rows[j].curso_id
  }

  /** The record `handleSaveCourse` inserts. */
  function NewEnrollment(id: string, student: string, course: Course): (r: EnrollmentRow)
    ensures r.id == id && Enrolled([r], student, course.id)
    ensures r.title == Some(course.nome) && r.progresso_aluno == 0 && r.tempo_estudo == 0
    ensures r.salvar_favorito
  {
    var r := EnrollmentRow(
      id := id,
      aluno_id := student,
      curso_id := course.id,
      title := Some(course.nome),
      progresso_aluno := 0,
      tempo_estudo := 0,
      salvar_favorito := true);
    assert [r][0] == r;
    r
  }

  /** Appending an enrollment for a course the student has none of keeps one enrollment per course. */
  lemma AppendKeepsOnePerCourse(rows: seq<EnrollmentRow>, row: EnrollmentRow)
    requires OnePerCourse(rows) && !Enrolled(rows, row.aluno_id, row.curso_id)
    ensures OnePerCourse(rows + [row])
  {
    var r := rows + [row];
    forall i, j | 0 <= i < j < |r| && r[i].aluno_id == r[j].aluno_id
      ensures r[i].curso_id != r[j].curso_id
    {
      if j == |rows| {
        assert r[i] == rows[i];
      }
    }
  }

  /** `update({ salvar_favorito: v }).eq("id", id)`: that flag on the rows with that id, nothing else. */
  function SetFavorite(rows: seq<EnrollmentRow>, id: string, v: bool): (r: seq<EnrollmentRow>)
    ensures |r| == |rows|
    ensures forall k :: 0 <= k < |r| ==>
      r[k] == if rows[k].id == id then rows[k].(salvar_favorito := v) else rows[k]
    ensures IdsUnique(rows) ==> IdsUnique(r)
    ensures OnePerCourse(rows) ==> OnePerCourse(r)
  {
    seq(|rows|, k requires 0 <= k < |rows| =>
      if rows[k].id == id then rows[k].(salvar_favorito := v) else rows[k])
  }

  /**
   * Toggling twice, each time from the value the card showed, restores the table; with
   * unique ids exactly one record is touched.
   */
  lemma ToggleTwiceRestores(rows: seq<EnrollmentRow>, i: nat, v: bool)
    requires IdsUnique(rows) && i < |rows| && rows[i].salvar_favorito == v
    ensures var once := SetFavorite(rows, rows[i].id, !v);
      && once[i] == rows[i].(salvar_favorito := !v)
      && (forall k :: 0 <= k < |rows| && k != i ==> once[k] == rows[k])
      && SetFavorite(once, rows[i].id, !!v) == rows
  {
    var once := SetFavorite(rows, rows[i].id, !v);
    var twice := SetFavorite(once, rows[i].id, !!v);
    assert forall k :: 0 <= k < |rows| ==> twice[k] == rows[k];
  }

  /** The page component: its state and the two backend tables it reads and writes. */
  class CoursesPage {
    var courseTable: seq<Course>
    var enrollments: seq<EnrollmentRow>
    var userId: Option<string>          // `session?.user.id`
    var allCourses: seq<Course>
    var studentCourses: seq<StudentCourse>

    constructor (courseTable: seq<Course>, enrollments: seq<EnrollmentRow>, userId: Option<string>)
      ensures this.courseTable == courseTable && this.enrollments == enrollments && this.userId == userId
      ensures allCourses == [] && studentCourses == []
    {
      this.courseTable, this.enrollments, this.userId := courseTable, enrollments, userId;
      allCourses, studentCourses := [], [];
    }

    /** The cached enrollment list is what the table holds for the signed-in student. */
    ghost predicate CacheFresh()
      reads this
    {
      userId.Some? && studentCourses == StudentView(enrollments, userId.value, courseTable)
    }

    /** `fetchCourses`: on success the active catalog ordered by name; on error the list is kept. */
    method FetchCourses(ok: bool)
      modifies this`allCourses
      ensures allCourses == if ok then ActiveCatalog(courseTable) else old(allCourses)
    {
      if ok {
        allCourses := ActiveCatalog(courseTable);
      }
    }

    /**
     * `fetchStudentCourses`: on success the signed-in student's enrollments. Without a
     * user id the filter value is undefined; such a query is taken to fail, so the list
     * is kept.
     */
    method FetchStudentCourses(ok: bool)
      modifies this`studentCourses
      ensures studentCourses == if ok && userId.Some? then StudentView(enrollments, userId.value, courseTable)
                                else old(studentCourses)
      ensures ok && userId.Some? ==> CacheFresh()
    {
      if ok && userId.Some? {
        studentCourses := StudentView(enrollments, userId.value, courseTable);
      }
    }

    /**
     * `handleSaveCourse`: nothing without a user id or when the cached list already has an
     * enrollment for the course; otherwise insert a zeroed, bookmarked enrollment and
     * refetch. With a fresh cache the table keeps one enrollment per student and course.
     */
    method SaveCourse(course: Course, newId: string, insertOk: bool, refreshOk: bool)
      modifies this`enrollments, this`studentCourses
      ensures userId.None? || userId.value == "" || Listed(old(studentCourses), course.id) ==>
        enrollments == old(enrollments) && studentCourses == old(studentCourses)
      ensures userId.Some? && userId.value != "" && !Listed(old(studentCourses), course.id) ==>
        var inserted := insertOk && !IdTaken(old(enrollments), newId);
        && enrollments == (if inserted then old(enrollments) + [NewEnrollment(newId, userId.value, course)]
                           else old(enrollments))
        && studentCourses == (if inserted && refreshOk then StudentView(enrollments, userId.value, courseTable)
                              else old(studentCourses))
      ensures old(CacheFresh()) && old(OnePerCourse(enrollments)) ==> OnePerCourse(enrollments)
      ensures old(IdsUnique(enrollments)) ==> IdsUnique(enrollments)
    {
      if userId.None? || userId.value == "" {
        return;
      }
      if FindByCourse(studentCourses, course.id).Some? {
        return;
      }
      var row := NewEnrollment(newId, userId.value, course);
      // the primary key rejects a second row with the same id
      if !insertOk || IdTaken(enrollments, newId) {
        return;
      }
      if CacheFresh() && OnePerCourse(enrollments) {
        // the fresh cache lists every enrollment of the student, and this course is not listed
        assert !Listed(StudentView(enrollments, userId.value, courseTable), course.id);
        assert !Enrolled(enrollments, userId.value, course.id);
        AppendKeepsOnePerCourse(enrollments, row);
      }
      enrollments := enrollments + [row];
      FetchStudentCourses(refreshOk);
    }

    /**
     * `handleToggleBookmark(id, currentValue)`: set the flag of the record with that id
     * to the negation of the value the card showed, then refetch.
     */
    method ToggleBookmark(studentCourseId: string, currentValue: bool, updateOk: bool, refreshOk: bool)
      modifies this`enrollments, this`studentCourses
      ensures enrollments == if updateOk then SetFavorite(old(enrollments), studentCourseId, !currentValue)
                             else old(enrollments)
      ensures studentCourses == if updateOk && refreshOk && userId.Some? then StudentView(enrollments, userId.value, courseTable)
                                else old(studentCourses)
      ensures old(OnePerCourse(enrollments)) ==> OnePerCourse(enrollments)
      ensures old(IdsUnique(enrollments)) ==> IdsUnique(enrollments)
    {
      if updateOk {
        enrollments := SetFavorite(enrollments, studentCourseId, !currentValue);
        FetchStudentCourses(refreshOk);
      }
    }
  }
}
