/**
 * The journey detail page: resolving the route id against the `student_journeys` and
 * `journeys` tables, the bookmark toggle, and the progress figures. The backend tables are
 * in-memory sequences; the outcome of a write and the id the backend assigns to a new
 * row are parameters.
 */
module JourneyDetail {
  import opened Wrappers
  import opened Seqs
  import opened JsValue

  /** A row of the `journeys` table, with the columns this page reads. */
  datatype Journey = Journey(
    id: string,
    title: Option<string>,
    description: Option<string>,
    cover: Option<string>,
    number_steps: Option<int>,
    courses: Json,
    journeys: Json)

  /** A row of the `student_journeys` table: a student's snapshot of a journey plus progress and bookmark. */
  datatype StudentJourney = StudentJourney(
    id: string,
    student_id: string,
    journey_id: string,
    title: Option<string>,
    description: Option<string>,
    cover: Option<string>,
    current_step: Option<int>,
    number_steps: Option<int>,
    courses: Json,
    journeys: Json,
    saved_created: bool)

  /** The row a `.single()` or `.maybeSingle()` query returns: data only when exactly one row matches. */
  function OnlyRow<T>(rows: seq<T>): (r: Option<T>)
    ensures r.Some? ==> rows == [r.value]
    ensures r.None? ==> |rows| != 1
  {
    if |rows| == 1 then Some(rows[0]) else None
  }

  predicate IdTaken(table: seq<StudentJourney>, id: string) {
    exists i :: 0 <= i < |table| && table[i].id == id
  }

  /** `id` is the primary key of `student_journeys`. */
  predicate IdsUnique(table: seq<StudentJourney>) {
    forall i, j :: 0 <= i < j < |table| ==> table[i].id != table[j].id
  }

  /**
   * `student_journeys ... .eq("id", id).maybeSingle()`: a found record has the id, and
   * a record that is the only one with the id is found.
   */
  function StudentJourneyWithId(table: seq<StudentJourney>, id: string): (r: Option<StudentJourney>)
    ensures r.Some? ==> r.value in table && r.value.id == id
    ensures forall i ::
      (0 <= i < |table| && table[i].id == id && forall k :: 0 <= k < |table| && table[k].id == id ==> k == i)
      ==> r == Some(table[i])
  {
    var p := (row: StudentJourney) => row.id == id;
    SelectsUnique(table, p);
    OnlyRow(Filter(table, p))
  }

  /** With unique ids, the lookup by id finds a row whenever one has that id. */
  lemma LookupFindsTakenId(table: seq<StudentJourney>, id: string)
    requires IdsUnique(table) && IdTaken(table, id)
    ensures StudentJourneyWithId(table, id).Some?
  {
    var i :| 0 <= i < |table| && table[i].id == id;
    assert forall k :: 0 <= k < |table| && table[k].id == id ==> k == i;
  }

  /**
   * `journeys ... .eq("id", id).single()`: a found journey has the id, and a journey that
   * is the only one with the id is found.
   */
  function JourneyWithId(table: seq<Journey>, id: string): (r: Option<Journey>)
    ensures r.Some? ==> r.value in table && r.value.id == id
    ensures forall i ::
      (0 <= i < |table| && table[i].id == id && forall k :: 0 <= k < |table| && table[k].id == id ==> k == i)
      ==> r == Some(table[i])
  {
    var p := (j: Journey) => j.id == id;
    SelectsUnique(table, p);
    OnlyRow(Filter(table, p))
  }

  /** The row is the student's record of the journey. */
  predicate IsRecordOf(row: StudentJourney, journeyId: string, studentId: string) {
    row.journey_id == journeyId && row.student_id == studentId
  }

  /** A student has at most one record per journey. */
  predicate OnePerJourney(table: seq<StudentJourney>) {
    forall i, j :: 0 <= i < j < |table| && table[i].student_id == table[j].student_id ==>
      table[i].journey_id != table[j].journey_id
  }

  /**
   * `student_journeys ... .eq("journey_id", journeyId).eq("student_id", studentId).maybeSingle()`:
   * a found record is the student's record of the journey, and the student's only record
   * of it is found.
   */
  function SavedJourneyOf(table: seq<StudentJourney>, journeyId: string, studentId: string): (r: Option<StudentJourney>)
    ensures r.Some? ==> r.value in table && IsRecordOf(r.value, journeyId, studentId)
    ensures forall i ::
      (0 <= i < |table| && IsRecordOf(table[i], journeyId, studentId)
       && forall k :: 0 <= k < |table| && IsRecordOf(table[k], journeyId, studentId) ==> k == i)
      ==> r == Some(table[i])
  {
    var p := (row: StudentJourney) => IsRecordOf(row, journeyId, studentId);
    SelectsUnique(table, p);
    OnlyRow(Filter(table, p))
  }

  /**
   * With one record per journey, a lookup of the student's record that finds nothing
   * means the student has no record of the journey at all.
   */
  lemma {:induction false} NoSavedRecordMeansNone(table: seq<StudentJourney>, journeyId: string, studentId: string)
    requires OnePerJourney(table)
    requires SavedJourneyOf(table, journeyId, studentId).None?
    ensures forall k :: 0 <= k < |table| ==> !IsRecordOf(table[k], journeyId, studentId)
  {
    var p := (row: StudentJourney) => IsRecordOf(row, journeyId, studentId);
    forall m | 0 <= m < |table| && p(table[m])
      ensures Filter(table, p) == [table[m]]
    {
      SelectsOne(table, p, m);
    }
  }

  /** The page state the fetch and the toggle set: `journey`, `studentJourney`, `isBookmarked`. */
  datatype PageView = PageView(journey: Option<Journey>, studentJourney: Option<StudentJourney>, isBookmarked: bool)

  /**
   * What `fetchJourneyData` leaves in the page state. The route id is first tried as a
   * student journey id; the journey is then loaded by that record's `journey_id`.
   * Otherwise the route id is taken as a journey id and, with a session, the student's
   * saved record of that journey is looked up. A query that finds nothing leaves the
   * corresponding state as it was.
   */
  function Resolve(journeys: seq<Journey>, studentJourneys: seq<StudentJourney>, session: Option<string>,
                   routeId: string, prev: PageView): (r: PageView)
    // the route id names a student journey: that record and its flag, and its journey when that is found
    ensures var sj := StudentJourneyWithId(studentJourneys, routeId);
      sj.Some? ==>
        && r.studentJourney == sj && r.isBookmarked == sj.value.saved_created
        && r.journey == (if JourneyWithId(journeys, sj.value.journey_id).Some?
                         then JourneyWithId(journeys, sj.value.journey_id) else prev.journey)
    // it names neither a student journey nor a journey: the page stays as it was
    ensures StudentJourneyWithId(studentJourneys, routeId).None? && JourneyWithId(journeys, routeId).None? ==>
      r == prev
    // it names a journey: that journey, and the student's own record of it when there is exactly one
    ensures StudentJourneyWithId(studentJourneys, routeId).None? && JourneyWithId(journeys, routeId).Some? ==>
      && r.journey == JourneyWithId(journeys, routeId)
      && if session.Some? && SavedJourneyOf(studentJourneys, routeId, session.value).Some? then
           r.studentJourney == SavedJourneyOf(studentJourneys, routeId, session.value)
           && r.isBookmarked == r.studentJourney.value.saved_created
         else
           r.studentJourney == prev.studentJourney && r.isBookmarked == prev.isBookmarked
    // whatever is loaded comes from the tables, and a newly shown record brings its own flag
    ensures r.journey == prev.journey || (r.journey.Some? && r.journey.value in journeys)
    ensures r.studentJourney != prev.studentJourney ==>
      r.studentJourney.Some? && r.studentJourney.value in studentJourneys
      && r.isBookmarked == r.studentJourney.value.saved_created
      && (session.Some? ==> r.studentJourney.value.id == routeId || r.studentJourney.value.student_id == session.value)
  {
    match StudentJourneyWithId(studentJourneys, routeId)
    case Some(sj) =>
      var j := JourneyWithId(journeys, sj.journey_id);
      PageView(if j.Some? then j else prev.journey, Some(sj), sj.saved_created)
    case None =>
      match JourneyWithId(journeys, routeId)
      case None => prev
      case Some(j) =>
        var saved := if session.Some? then SavedJourneyOf(studentJourneys, routeId, session.value) else None;
        if saved.Some? then PageView(Some(j), saved, saved.value.saved_created)
        else prev.(journey := Some(j))
  }

  /**
   * Opening a journey by its id loads the student's record of it: with one journey of
   * that id, no student journey of that id, and exactly one record of the student for
   * the journey, the page shows that record and its flag, so a later toggle updates it
   * instead of inserting another (`JourneyDetailPage.ToggleBookmark` keeps one record
   * per student and journey).
   */
  lemma ResolveLoadsSavedRecord(journeys: seq<Journey>, table: seq<StudentJourney>, studentId: string,
                                routeId: string, i: nat, m: nat, prev: PageView)
    requires i < |journeys| && journeys[i].id == routeId
    requires forall k :: 0 <= k < |journeys| && journeys[k].id == routeId ==> k == i
    requires !IdTaken(table, routeId)
    requires m < |table| && IsRecordOf(table[m], routeId, studentId)
    requires forall k :: 0 <= k < |table| && IsRecordOf(table[k], routeId, studentId) ==> k == m
    ensures Resolve(journeys, table, Some(studentId), routeId, prev)
      == PageView(Some(journeys[i]), Some(table[m]), table[m].saved_created)
  {
    NoMatch(table, (row: StudentJourney) => row.id == routeId);
  }

  /**
   * The page state hides no record: when it shows a journey but no record, that journey
   * is the one the route names and the signed-in student has no record of it, so a
   * toggle may insert one.
   */
  predicate HidesNoRecord(v: PageView, journeys: seq<Journey>, table: seq<StudentJourney>,
                          session: Option<string>, routeId: string)
  {
    session.Some? && v.studentJourney.None? && v.journey.Some? ==>
      && v.journey == JourneyWithId(journeys, routeId)
      && forall k :: 0 <= k < |table| ==> !IsRecordOf(table[k], v.journey.value.id, session.value)
  }

  /**
   * With one record per student and journey, resolving the route hides no record,
   * provided the route names a journey or the previous state hid none.
   */
  lemma ResolveHidesNoRecord(journeys: seq<Journey>, table: seq<StudentJourney>, session: Option<string>,
                             routeId: string, prev: PageView)
    ensures OnePerJourney(table)
            && (HidesNoRecord(prev, journeys, table, session, routeId) || JourneyWithId(journeys, routeId).Some?)
        ==> HidesNoRecord(Resolve(journeys, table, session, routeId, prev), journeys, table, session, routeId)
  {
    if OnePerJourney(table) && session.Some? && StudentJourneyWithId(table, routeId).None? && JourneyWithId(journeys, routeId).Some?
       && SavedJourneyOf(table, routeId, session.value).None? {
      NoSavedRecordMeansNone(table, routeId, session.value);
    }
  }

  /**
   * The record inserted when a journey is bookmarked for the first time: the student's
   * record of the journey, bookmarked, at step 0, with the journey's content copied.
   */
  function Snapshot(j: Journey, studentId: string, id: string): (r: StudentJourney)
    ensures r.id == id && IsRecordOf(r, j.id, studentId)
    ensures r.saved_created && r.current_step == Some(0)
    ensures r.title == j.title && r.description == j.description && r.cover == j.cover
    ensures r.number_steps == j.number_steps && r.courses == j.courses && r.journeys == j.journeys
  {
    StudentJourney(
      id := id,
      student_id := studentId,
      journey_id := j.id,
      title := j.title,
      description := j.description,
      cover := j.cover,
      current_step := Some(0),
      number_steps := j.number_steps,
      courses := j.courses,
      journeys := j.journeys,
      saved_created := true)
  }

  /** `update({ saved_created: v }).eq("id", id)`: every row with that id gets the flag, nothing else changes. */
  function SetSavedCreated(table: seq<StudentJourney>, id: string, v: bool): (r: seq<StudentJourney>)
    ensures |r| == |table|
    ensures forall k :: 0 <= k < |r| ==>
      r[k] == if table[k].id == id then table[k].(saved_created := v) else table[k]
    ensures IdsUnique(table) ==> IdsUnique(r)
    ensures OnePerJourney(table) ==> OnePerJourney(r)
  {
    seq(|table|, k requires 0 <= k < |table| =>
      if table[k].id == id then table[k].(saved_created := v) else table[k])
  }

  /** Appending a row under an id not yet taken keeps the ids unique. */
  lemma AppendKeepsIdsUnique(table: seq<StudentJourney>, row: StudentJourney)
    requires IdsUnique(table) && !IdTaken(table, row.id)
    ensures IdsUnique(table + [row])
  {
    var t := table + [row];
    forall i, j | 0 <= i < j < |t|
      ensures t[i].id != t[j].id
    {
      if j == |table| {
        assert t[i] == table[i];
      }
    }
  }

  /** Appending a record of a journey the student has no record of keeps one record per journey. */
  lemma AppendKeepsOnePerJourney(table: seq<StudentJourney>, row: StudentJourney)
    requires OnePerJourney(table)
    requires forall k :: 0 <= k < |table| ==> !IsRecordOf(table[k], row.journey_id, row.student_id)
    ensures OnePerJourney(table + [row])
  {
    var t := table + [row];
    forall i, j | 0 <= i < j < |t| && t[i].student_id == t[j].student_id
      ensures t[i].journey_id != t[j].journey_id
    {
      if j == |table| {
        assert !IsRecordOf(table[i], row.journey_id, row.student_id);
      }
    }
  }

  /** The last write wins, and writing back the value the rows had restores the table. */
  lemma SetSavedCreatedTwice(table: seq<StudentJourney>, id: string, a: bool, b: bool)
    ensures SetSavedCreated(SetSavedCreated(table, id, a), id, b) == SetSavedCreated(table, id, b)
    ensures (forall k :: 0 <= k < |table| && table[k].id == id ==> table[k].saved_created == b) ==>
      SetSavedCreated(table, id, b) == table
  {
  }

  /** `x || 0` for a nullable integer column. */
  function OrZero(v: Option<int>): (r: int)
    ensures v.None? ==> r == 0
    ensures v.Some? ==> r == v.value
  {
    if v.Some? && v.value != 0 then v.value else 0
  }

  /** The progress block: `current/total` and the bar's value, a fraction only when total > 0. */
  datatype Progress = Progress(currentStep: int, totalSteps: int, fraction: Option<(int, int)>)

  /**
   * Shown only when the student has a record of the journey. `currentStep` comes from
   * the student's record, `totalSteps` from the journey; the bar divides only by a
   * positive total and is empty otherwise.
   */
  function ProgressSection(j: Journey, sj: Option<StudentJourney>): (r: Option<Progress>)
    ensures r.Some? <==> sj.Some?
    ensures r.Some? ==> r.value.currentStep == OrZero(sj.value.current_step)
    ensures r.Some? ==> r.value.totalSteps == OrZero(j.number_steps)
    ensures r.Some? ==> (r.value.fraction.Some? <==> r.value.totalSteps > 0)
    ensures r.Some? && r.value.fraction.Some? ==>
      r.value.fraction.value == (r.value.currentStep, r.value.totalSteps) && r.value.fraction.value.1 > 0
  {
    match sj
    case None => None
    case Some(s) =>
      var current, total := OrZero(s.current_step), OrZero(j.number_steps);
      Some(Progress(current, total, if total > 0 then Some((current, total)) else None))
  }

  /**
   * After a first bookmark the refetch finds the new record: when the route names the
   * journey, no student journey has the route id and the student had no record of the
   * journey, the page shows the snapshot, bookmarked, at step 0.
   */
  lemma {:induction false} ResolveAfterInsert(journeys: seq<Journey>, table: seq<StudentJourney>, j: Journey,
                                              studentId: string, newId: string, prev: PageView)
    requires JourneyWithId(journeys, j.id) == Some(j)
    requires newId != j.id && !IdTaken(table, j.id)
    requires forall k :: 0 <= k < |table| ==> !IsRecordOf(table[k], j.id, studentId)
    ensures var row := Snapshot(j, studentId, newId);
      Resolve(journeys, table + [row], Some(studentId), j.id, prev) == PageView(Some(j), Some(row), true)
  {
    var row := Snapshot(j, studentId, newId);
    var t := table + [row];
    NoMatch(t, (r: StudentJourney) => r.id == j.id);
    assert IsRecordOf(t[|table|], j.id, studentId);
    assert forall k :: 0 <= k < |t| && IsRecordOf(t[k], j.id, studentId) ==> k == |table|;
  }

  /** The page component: its state fields and the two backend tables it reads and writes. */
  class JourneyDetailPage {
    var journeys: seq<Journey>
    var studentJourneys: seq<StudentJourney>
    var session: Option<string>   // the signed-in user's id
    var routeId: string           // the `id` route parameter
    var journey: Option<Journey>
    var studentJourney: Option<StudentJourney>
    var isBookmarked: bool
    var loading: bool

    constructor (journeys: seq<Journey>, studentJourneys: seq<StudentJourney>, session: Option<string>, routeId: string)
      ensures this.journeys == journeys && this.studentJourneys == studentJourneys
      ensures this.session == session && this.routeId == routeId
      ensures journey.None? && studentJourney.None? && !isBookmarked && loading
      ensures NoHiddenRecord()
    {
      this.journeys, this.studentJourneys := journeys, studentJourneys;
      this.session, this.routeId := session, routeId;
      journey, studentJourney := None, None;
      isBookmarked, loading := false, true;
    }

    function View(): PageView
      reads this
    {
      PageView(journey, studentJourney, isBookmarked)
    }

    /** The page hides no record of the journey it shows (see `HidesNoRecord`). */
    ghost predicate NoHiddenRecord()
      reads this
    {
      HidesNoRecord(View(), journeys, studentJourneys, session, routeId)
    }

    /** `fetchJourneyData`: resolve the route id; the tables are only read. */
    method FetchJourneyData()
      modifies this`journey, this`studentJourney, this`isBookmarked, this`loading
      ensures View() == Resolve(journeys, studentJourneys, session, routeId, old(View()))
      ensures !loading
      ensures OnePerJourney(studentJourneys) && (old(NoHiddenRecord()) || JourneyWithId(journeys, routeId).Some?) ==>
        NoHiddenRecord()
    {
      ghost var prev := View();
      loading := true;
      var sj := StudentJourneyWithId(studentJourneys, routeId);
      if sj.Some? {
        studentJourney := sj;
        isBookmarked := sj.value.saved_created;
        var j := JourneyWithId(journeys, sj.value.journey_id);
        if j.Some? {
          journey := j;
        }
        // otherwise `.single()` reports an error, which is caught and only shown as a toast
      } else {
        var j := JourneyWithId(journeys, routeId);
        if j.Some? {
          journey := j;
          if session.Some? {
            var saved := SavedJourneyOf(studentJourneys, routeId, session.value);
            if saved.Some? {
              studentJourney := saved;
              isBookmarked := saved.value.saved_created;
            }
          }
        }
      }
      loading := false;
      assert View() == Resolve(journeys, studentJourneys, session, routeId, prev);
      ResolveHidesNoRecord(journeys, studentJourneys, session, routeId, prev);
    }

    /**
     * `handleToggleBookmark`. With a student record, the record's flag is set to the
     * negation of the page's flag and the page's flag flips, provided the update
     * succeeds. Without one, a snapshot of the loaded journey is inserted, the page is
     * marked bookmarked and the data is fetched again. Without a session nothing happens.
     * `writeOk` is the backend's answer to the write; `newId` the id it gives a new row.
     */
    method ToggleBookmark(newId: string, writeOk: bool)
      modifies this`studentJourneys, this`journey, this`studentJourney, this`isBookmarked, this`loading
      ensures session.None? ==>
        studentJourneys == old(studentJourneys) && View() == old(View()) && loading == old(loading)
      ensures session.Some? && old(studentJourney).Some? ==>
        && studentJourneys == (if writeOk then SetSavedCreated(old(studentJourneys), old(studentJourney).value.id, !old(isBookmarked))
                               else old(studentJourneys))
        && isBookmarked == (if writeOk then !old(isBookmarked) else old(isBookmarked))
        && journey == old(journey) && studentJourney == old(studentJourney) && loading == old(loading)
      ensures session.Some? && old(studentJourney).None? && old(journey).Some? ==>
        var row := Snapshot(old(journey).value, session.value, newId);
        if writeOk && !IdTaken(old(studentJourneys), newId) then
          && studentJourneys == old(studentJourneys) + [row]
          && View() == Resolve(journeys, studentJourneys, session, routeId, old(View()).(isBookmarked := true))
          && !loading
        else
          studentJourneys == old(studentJourneys) && View() == old(View()) && loading == old(loading)
      ensures session.Some? && old(studentJourney).None? && old(journey).None? ==>
        studentJourneys == old(studentJourneys) && View() == old(View()) && loading == old(loading)
      ensures old(IdsUnique(studentJourneys)) ==> IdsUnique(studentJourneys)
      ensures old(OnePerJourney(studentJourneys)) && old(NoHiddenRecord()) ==>
        OnePerJourney(studentJourneys) && NoHiddenRecord()
    {
      if session.None? {
        return;
      }
      if studentJourney.Some? {
        if writeOk {
          studentJourneys := SetSavedCreated(studentJourneys, studentJourney.value.id, !isBookmarked);
          isBookmarked := !isBookmarked;
        }
      } else if journey.Some? {
        var inserted := InsertSnapshot(newId, writeOk);
        if inserted {
          FetchJourneyData();
        }
      }
    }

    /**
     * The insert of a first bookmark: a snapshot of the shown journey under the id the
     * backend gives, and the page marked bookmarked. A failed insert, or one whose id is
     * taken, changes nothing. An insert keeps ids unique and, on a page that hides no
     * record, one record per student and journey; the route then names a journey.
     */
    method InsertSnapshot(newId: string, writeOk: bool) returns (inserted: bool)
      requires session.Some? && studentJourney.None? && journey.Some?
      modifies this`studentJourneys, this`isBookmarked
      ensures inserted == (writeOk && !IdTaken(old(studentJourneys), newId))
      ensures studentJourneys == if inserted then old(studentJourneys) + [Snapshot(journey.value, session.value, newId)]
                                 else old(studentJourneys)
      ensures isBookmarked == (inserted || old(isBookmarked))
      ensures old(IdsUnique(studentJourneys)) ==> IdsUnique(studentJourneys)
      ensures old(OnePerJourney(studentJourneys)) && old(NoHiddenRecord()) ==>
        OnePerJourney(studentJourneys) && JourneyWithId(journeys, routeId).Some?
    {
      var row := Snapshot(journey.value, session.value, newId);
      // the primary key rejects a second row with the same id
      inserted := writeOk && !IdTaken(studentJourneys, newId);
      if inserted {
        if IdsUnique(studentJourneys) {
          AppendKeepsIdsUnique(studentJourneys, row);
        }
        if OnePerJourney(studentJourneys) && NoHiddenRecord() {
          AppendKeepsOnePerJourney(studentJourneys, row);
        }
        studentJourneys := studentJourneys + [row];
        isBookmarked := true;
      }
    }
  }

  /**
   * Two successful toggles on a page that shows a student record restore the page's flag,
   * and restore the table when the record's flag agreed with the page's.
   */
  method ToggleTwiceRestores(page: JourneyDetailPage, newId: string)
    requires page.session.Some? && page.studentJourney.Some?
    modifies page
    ensures page.isBookmarked == old(page.isBookmarked)
    ensures page.studentJourney == old(page.studentJourney)
    ensures (forall k :: 0 <= k < |old(page.studentJourneys)| && old(page.studentJourneys)[k].id == old(page.studentJourney).value.id
               ==> old(page.studentJourneys)[k].saved_created == old(page.isBookmarked))
            ==> page.studentJourneys == old(page.studentJourneys)
  {
    ghost var table, b, id := page.studentJourneys, page.isBookmarked, page.studentJourney.value.id;
    page.ToggleBookmark(newId, true);
    page.ToggleBookmark(newId, true);
    SetSavedCreatedTwice(table, id, !b, b);
  }

  /**
   * A first bookmark followed by a second toggle: the first inserts the snapshot and the
   * refetch shows it bookmarked; the second clears the new record's flag again.
   */
  method BookmarkThenUnbookmark(page: JourneyDetailPage, newId: string)
    requires page.session.Some? && page.studentJourney.None? && page.journey.Some?
    requires page.routeId == page.journey.value.id
    requires JourneyWithId(page.journeys, page.routeId) == page.journey
    requires newId != page.routeId && !IdTaken(page.studentJourneys, page.routeId) && !IdTaken(page.studentJourneys, newId)
    requires IdsUnique(page.studentJourneys)
    requires forall k :: 0 <= k < |page.studentJourneys| ==>
      !IsRecordOf(page.studentJourneys[k], page.routeId, page.session.value)
    modifies page
    ensures !page.isBookmarked
    ensures page.studentJourneys ==
      old(page.studentJourneys) + [Snapshot(old(page.journey).value, old(page.session).value, newId).(saved_created := false)]
  {
    ghost var table, j, user := page.studentJourneys, page.journey.value, page.session.value;
    ghost var row := Snapshot(j, user, newId);
    page.ToggleBookmark(newId, true);
    assert page.studentJourneys == table + [row];
    ResolveAfterInsert(page.journeys, table, j, user, newId, PageView(Some(j), None, true));
    assert page.View() == PageView(Some(j), Some(row), true);
    page.ToggleBookmark(newId, true);
    SetSavedCreatedOnNewRow(table, row, false);
  }

  /** Writing the flag of a row appended under a fresh id touches only that row. */
  lemma SetSavedCreatedOnNewRow(table: seq<StudentJourney>, row: StudentJourney, v: bool)
    requires !IdTaken(table, row.id)
    ensures SetSavedCreated(table + [row], row.id, v) == table + [row.(saved_created := v)]
  {
    var r := SetSavedCreated(table + [row], row.id, v);
    assert forall k :: 0 <= k < |table| ==> r[k] == table[k];
  }
}
