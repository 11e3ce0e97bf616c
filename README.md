# Journeys and courses: step expansion, views and bookmarks

A verified model of the logic inside two page components of a student learning portal. In this snapshot of the application, no route in `src/App.tsx` leads to the journey detail page, so that page cannot be reached; it is modelled as written.

- The **journey detail page** (`src/pages/JourneyDetail.tsx`):
  - reads a journey's loosely typed `courses` and `journeys` columns as arrays;
  - expands them into one numbered list of step records, course steps first, with JavaScript `||` defaults for missing fields;
  - resolves the route id first as a `student_journeys` row, then as a `journeys` row;
  - toggles the bookmark: it flips `saved_created` on the student's record, or inserts a snapshot of the journey when there is no record yet.
- The **courses page** (`src/pages/Courses.tsx`):
  - fetches the catalog of active courses ordered by name;
  - fetches the student's enrollments (`student_courses`);
  - computes the "Discover" and "Saved" tabs;
  - saves a course (inserts a zeroed, bookmarked enrollment unless one is already listed);
  - toggles an enrollment's `salvar_favorito`.

The backend tables are in-memory sequences held by the two page classes. The session is an optional user id. What the backend answers to a write (success or error) and the id it gives a new row are method parameters. A row whose id is already taken is refused, as the primary key would refuse it.

Files:
- `wrappers.dfy`: `Option`.
- `seqs.dfy`: order-preserving `Filter`, `Map` and their lemmas.
- `js_value.dfy`: JavaScript values, truthiness, `||`, property reads, and `String(v)` as a template literal computes it.
- `journey_steps.dfy`: the step expansion and the structure section.
- `journey_detail.dfy`: id resolution, the bookmark toggle and the progress figures.
- `courses.dfy`: the courses page.

Behaviour worth knowing:
- In "Discover" each card's `isBookmarked` prop is set when ANY enrollment for the course exists, whatever that enrollment's `salvar_favorito` says. `DiscoverCards` states this. The card draws no bookmark icon there, because Discover passes it no toggle handler.
- A course un-bookmarked from "Saved" is stuck. It leaves that tab, so no card with a toggle remains for it. The save guard behind Discover's button still finds its enrollment, so saving it again does nothing. `UnbookmarkedCourseStaysMarked` states this.
- On the courses page, saving never flips an existing enrollment. Only the "Saved" tab's toggle does.
- The "In progress" and "Completed" tabs are fixed messages. No categorisation is computed, so none is modelled.
- A sub-journey step without a step count gets `totalSteps` 4 and `lessons` 5. The same fallback applies when the count is 0.

## Model

| member | source | states |
|---|---|---|
| `JourneySteps.AsArray` | src/pages/JourneyDetail.tsx:135-145 | an array value is returned unchanged; null, undefined and every non-array value give the empty list |
| `JourneySteps.CourseStep` | src/pages/JourneyDetail.tsx:272-286 | course step k is numbered k+1 and is "Curso" with progress 0, 10 lessons and no step counts. Its id and title are always truthy. A falsy id gives `course-<k>`, a falsy duration gives "30min" |
| `JourneySteps.SubJourneyStep` | src/pages/JourneyDetail.tsx:287-303 | sub-journey step j after n courses is numbered n+j+1 and is "Jornada" with progress 0 and 0 steps completed. Its step total, lessons, id and title are always truthy. A falsy id gives `journey-<j>`, a falsy duration gives "40min" |
| `JourneySteps.ExpandSteps` | src/pages/JourneyDetail.tsx:272-303 | n course steps and m sub-journey steps give n+m steps numbered 1..n+m without gaps; exactly steps 1..n are "Curso" |
| `JourneySteps.CourseStepDefaults` | src/pages/JourneyDetail.tsx:272-286 | course step k is "Curso" with progress 0 and 10 lessons. Its duration is `<d>min` for a truthy duration, else "30min". Its title is `title`, else `nome`, else "Curso sem título". Its id is `id`, else `course-<k>` |
| `JourneySteps.SubJourneyStepDefaults` | src/pages/JourneyDetail.tsx:287-303 | sub-journey step j is numbered n+j+1 and is "Jornada" with progress 0 and 0 steps completed. totalSteps is `number_steps` or 4, lessons is `number_steps` or 5. Duration defaults to "40min", title to "Jornada sem título", id to `journey-<j>` |
| `JourneySteps.StepsAlwaysLabelled` | src/pages/JourneyDetail.tsx:272-303 | every step has a truthy id and title and a duration label ending in "min"; only sub-journey steps carry a step count, and it is truthy |
| `JourneySteps.ZeroStepCountFallsBack` | src/pages/JourneyDetail.tsx:296-300 | `number_steps: 0` yields totalSteps 4 and lessons 5 |
| `JourneySteps.TwoCoursesOneJourney` | src/pages/JourneyDetail.tsx:272-303 | two courses and one sub-journey give steps 1, 2, 3, of types Curso, Curso, Jornada |
| `JourneySteps.FallbackIdsDistinct` | src/pages/JourneyDetail.tsx:276 | two courses without an id get different fallback ids |
| `JourneySteps.JourneyStructure` | src/pages/JourneyDetail.tsx:266-305 | the "no content" message is shown exactly when the step list is empty; otherwise the step list is shown, or rendering fails when an element is null or undefined |
| `JourneyDetail.OnlyRow` | src/pages/JourneyDetail.tsx:35-73 | `.single()` / `.maybeSingle()`: a row comes back only when the query matched exactly that one row; no match or several matches give none |
| `JourneyDetail.StudentJourneyWithId` | src/pages/JourneyDetail.tsx:35-39 | a found record is in the table and has the route id; when exactly one record has the id, it is found |
| `JourneyDetail.LookupFindsTakenId` | src/pages/JourneyDetail.tsx:35-41 | with unique ids, a record with the route id is always found |
| `JourneyDetail.JourneyWithId` | src/pages/JourneyDetail.tsx:56-60 | a found journey is in the table and has the requested id; when exactly one journey has the id, it is found |
| `JourneyDetail.SavedJourneyOf` | src/pages/JourneyDetail.tsx:68-73 | a found record belongs to the session user and to the journey; when exactly one record does, it is found |
| `JourneyDetail.Resolve` | src/pages/JourneyDetail.tsx:30-87 | a route id naming a student journey selects that record and its flag, and the journey it names when that is found, else the previous journey. Otherwise, no journey with the id leaves the state unchanged. A found journey is loaded; with a session and the user's record of it, that record and its flag are selected, and else the record and flag are kept. Any new record comes from the table |
| `JourneyDetail.ResolveLoadsSavedRecord` | src/pages/JourneyDetail.tsx:54-79 | a route id that names one journey and no student record, with one record of the user for that journey, loads that journey, that record and its flag |
| `JourneyDetail.JourneyDetailPage.constructor` | src/pages/JourneyDetail.tsx:16-19 | the page starts loading, with no journey, no record and the flag cleared, so it hides no record |
| `JourneyDetail.JourneyDetailPage.FetchJourneyData` | src/pages/JourneyDetail.tsx:30-87 | the page state becomes `Resolve` of the tables and the previous state; loading ends. With one record per student and journey, a page showing a journey but no record shows the route's journey, of which the student has no record |
| `JourneyDetail.JourneyDetailPage.ToggleBookmark` | src/pages/JourneyDetail.tsx:89-133 | no session: nothing changes. With a record: on success only rows with its id get `saved_created := !isBookmarked` and the flag flips; on failure nothing changes. Without a record but with a journey: exactly one snapshot row is appended, the flag is set and the data refetched. Unique ids are preserved, and so is one record per student and journey on a page that hides no record |
| `JourneyDetail.JourneyDetailPage.InsertSnapshot` | src/pages/JourneyDetail.tsx:107-125 | the first-bookmark insert: exactly when the write succeeds under a free id, the snapshot is appended and the page flag is set; otherwise nothing changes. Unique ids are kept; on a page that hides no record, one record per student and journey is kept and the route names a journey, so the refetch finds it |
| `JourneyDetail.ResolveHidesNoRecord` | src/pages/JourneyDetail.tsx:30-87 | with one record per student and journey, a fetch whose route names a journey, or that starts from a page hiding no record, leaves a page that shows a journey without a record only when the student has no record of that journey |
| `JourneyDetail.NoSavedRecordMeansNone` | src/pages/JourneyDetail.tsx:65-79 | with one record per student and journey, a saved-record lookup that finds nothing means the student has no record of the journey |
| `JourneyDetail.AppendKeepsOnePerJourney` | src/pages/JourneyDetail.tsx:107-127 | inserting a record of a journey the student has no record of keeps one record per student and journey |
| `JourneyDetail.Snapshot` | src/pages/JourneyDetail.tsx:109-122 | the inserted record is the user's record of the journey, with the given id, bookmarked, at step 0, and copies the journey's title, description, cover, step count, courses and sub-journeys |
| `JourneyDetail.SetSavedCreated` | src/pages/JourneyDetail.tsx:99-102 | only rows with the id change, and only their `saved_created`; unique ids and one record per student and journey are preserved |
| `JourneyDetail.SetSavedCreatedTwice` | src/pages/JourneyDetail.tsx:97-105 | the second write wins; writing back the value the rows had restores the table |
| `JourneyDetail.ResolveAfterInsert` | src/pages/JourneyDetail.tsx:107-127 | after a first bookmark the refetch shows the inserted snapshot. It belongs to the user, copies the journey's fields, has `current_step` 0 and is bookmarked |
| `JourneyDetail.ToggleTwiceRestores` | src/pages/JourneyDetail.tsx:97-105 | two successful toggles restore the page flag, and the table when the record agreed with the page |
| `JourneyDetail.BookmarkThenUnbookmark` | src/pages/JourneyDetail.tsx:89-133 | a first toggle inserts the snapshot; a second clears its flag and leaves the page un-bookmarked |
| `JourneyDetail.OrZero` | src/pages/JourneyDetail.tsx:165-166 | a nullable integer defaulted to 0 with `or` is 0 for null and the value otherwise |
| `JourneyDetail.ProgressSection` | src/pages/JourneyDetail.tsx:246-258 | shown only with a student record; current is `current_step` or 0, total is `number_steps` or 0, and the bar divides only when total > 0 |
| `Seqs.Filter` | src/pages/Courses.tsx:161 | the result keeps exactly the elements of the input that satisfy the predicate |
| `Seqs.FilterAppend` | src/pages/Courses.tsx:161 | filtering distributes over concatenation, so the relative order is kept |
| `Seqs.SelectsOne` | src/pages/JourneyDetail.tsx:35-39 | when exactly one element satisfies the query's condition, the filter is that element alone |
| `Seqs.FilterMap` | src/pages/Courses.tsx:161 | filtering a mapped list is mapping the list filtered by the composed predicate |
| `Seqs.FilterFilter` | src/pages/Courses.tsx:161 | two successive filters are one filter by the conjunction |
| `Courses.SortByName` | src/pages/Courses.tsx:76 | the result is ordered by `nome` and is a permutation of the input |
| `Courses.ActiveCatalog` | src/pages/Courses.tsx:72-76 | the catalog is ordered by name, holds only active courses of the table and holds every active course of the table |
| `Courses.ActiveCatalogSpec` | src/pages/Courses.tsx:70-79 | the catalog holds exactly the active courses, each as often as the table has it, ordered by name |
| `Courses.CourseWithId` | src/pages/Courses.tsx:92-95 | the embedded course is a catalog row with the enrollment's `curso_id`, and there is one whenever the catalog has a row with that id |
| `Courses.Join` | src/pages/Courses.tsx:92-95 | a joined record keeps every column of its row; its embedded course is a catalog row for the row's `curso_id` |
| `Courses.StudentView` | src/pages/Courses.tsx:88-99 | with the embedded courses dropped the list is exactly the student's rows in table order; a course is listed exactly when the table has an enrollment of the student in it |
| `Courses.Listed` | src/pages/Courses.tsx:219 | `.some` holds exactly when some record has the course id |
| `Courses.FindByCourse` | src/pages/Courses.tsx:111 | `.find` returns a record exactly when `.some` holds, and it is the first record for the course |
| `Courses.Saved` | src/pages/Courses.tsx:161 | the Saved view holds the enrollments with `salvar_favorito` and no others |
| `Courses.SavedReflectsTable` | src/pages/Courses.tsx:88-99 | after a refetch the Saved view is exactly the student's rows with `salvar_favorito` set, in table order, each joined to its course |
| `Courses.SavedIsSubsequence` | src/pages/Courses.tsx:161 | the Saved view keeps the original order and every occurrence: it is the bookmarked sub-sequence |
| `Courses.DiscoverCards` | src/pages/Courses.tsx:211-220 | one card per catalog course in order; its `isBookmarked` prop is set iff some enrollment has that `curso_id`, so it is set for every saved course |
| `Courses.SavedCards` | src/pages/Courses.tsx:226-250 | the message exactly when nothing is saved; a render error exactly when some saved record lacks its embedded course, as `sc.courses.nome` then throws; otherwise one card per saved enrollment, showing that record's flag, which is always set |
| `Courses.SavedTabRendersWithCatalog` | src/pages/Courses.tsx:88-99 | when every course the student is enrolled in is in the catalog, the refetched Saved tab never fails to render |
| `Courses.UnbookmarkedCourseStaysMarked` | src/pages/Courses.tsx:111-116 | an enrollment with the flag cleared leaves Saved, so no toggle remains for it; the save guard still finds it, so saving again does nothing; Discover's `isBookmarked` prop stays set, though it is not drawn |
| `Courses.NewEnrollment` | src/pages/Courses.tsx:118-127 | the inserted row has the given id, enrolls the user in the course, takes the course's name as title, starts at progress 0 and study time 0, and is bookmarked |
| `Courses.AppendKeepsOnePerCourse` | src/pages/Courses.tsx:111-127 | appending an enrollment for a course the student has none of keeps at most one enrollment per student and course |
| `Courses.SetFavorite` | src/pages/Courses.tsx:139-144 | only rows with the id change, and only their `salvar_favorito`; unique ids and one-per-course are preserved |
| `Courses.ToggleTwiceRestores` | src/pages/Courses.tsx:139-149 | about two calls of the toggle handler: with unique ids one call changes exactly one record, and a second call with the value the first call wrote restores the table. The page itself can only call it from a Saved card, whose value is true, and after the refetch no card for that record remains |
| `Courses.CoursesPage.constructor` | src/pages/Courses.tsx:35-37 | the page starts with empty course and enrollment lists |
| `Courses.CoursesPage.FetchCourses` | src/pages/Courses.tsx:70-86 | on success the list is the active catalog by name; on error it is kept |
| `Courses.CoursesPage.FetchStudentCourses` | src/pages/Courses.tsx:88-104 | on success the list is the student's enrollments and the cache is fresh; on error or without a user it is kept |
| `Courses.CoursesPage.SaveCourse` | src/pages/Courses.tsx:106-137 | no user id, or an enrollment for the course already listed: nothing changes. Otherwise at most one zeroed, bookmarked record for the user and course is appended. With a fresh cache one-per-course is preserved |
| `Courses.CoursesPage.ToggleBookmark` | src/pages/Courses.tsx:139-154 | on success the table becomes `SetFavorite(id, !currentValue)` and is refetched; on failure nothing changes; both table invariants are preserved |

## Left out

- Network, authentication listeners, navigation, toasts and console output are not modelled. The tables are sequences, and each backend answer is a boolean parameter.
- Transport errors of the reads inside `fetchJourneyData` are not modelled. A query there "finds" a row exactly when one row matches.
- Concurrency is not modelled. Saves from two tabs can each pass the client-side check and insert two enrollments. Uniqueness beyond the cached list would rest on a backend constraint that is not part of this model.
- Row order from the backend is not modelled. The enrollment list keeps table order, which the query does not specify.
- `Courses.SortByName` orders by character code, not by the database collation. Among courses with equal names it uses one fixed order, where the database guarantees none.
- `JsValue.Json` numbers are unbounded integers only. Fractional numbers, NaN and their string forms are not modelled. Nor is the loss of precision above 2^53, or the exponent form (`1e+21`) that `String` gives from 10^21 up.
- `Courses.CoursesPage.FetchStudentCourses`: without a user id the query filters on an undefined value; the model takes that query to fail and keeps the list.
- The progress percentage `(currentStep / totalSteps) * 100` is floating point. Only its `totalSteps > 0` guard is modelled, in `JourneyDetail.ProgressSection`.
- `saved_created` is modelled as a boolean. A null value read into `isBookmarked` is not modelled.
- The cover-image fallback state and the header and badge labels are presentation, and so is the hard-coded instructor card. Routing and the Home and Journeys pages are not part of this model.
- The Saved card's embedded course name, first lesson, cover and progress bar are display fields and are not modelled. Only the throw when the embedded course is null is modelled, in `Courses.SavedCards`.
