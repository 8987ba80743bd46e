/** The course player page (frontend/src/pages/CoursePlayer.js) as an event
    machine.  The page shows a paged document; progress is the share of
    the document reached, and each improvement is saved, to the server when
    online and to one browser-storage entry per course when offline.  The
    first time progress reaches 100 the page asks the server to complete
    the course.

    Each handler's state updates take effect before the next event.  A save
    sent to the server stays in flight until `SaveSettled`.  Server calls
    are recorded, in order, in `calls`. */
module CoursePlayer {
  import opened Wrappers
  import JsMath
  import Seqs
  import Client

  datatype Call = SaveProgress(courseNo: int, progress: int) | CompleteCourse(courseNo: int)

  /** The JSON value kept in browser storage for an offline save. */
  datatype OfflineRecord = OfflineRecord(courseId: int, progress: int)

  /** `courseParam` is the route parameter, `courseNo` its `Number(...)`. */
  datatype Player = Player(
    courseParam: string,
    courseNo: int,
    numPages: Option<int>,
    page: int,
    progress: int,
    saving: bool,
    completed: bool,
    storage: map<string, OfflineRecord>,
    calls: seq<Call>)

  datatype Event =
    | DocumentLoaded(pages: int)
    | PageChange(newPage: int, online: bool)
    | SaveSettled

  /** The browser-storage key offline saves of one course go to. */
  function OfflineKey(courseParam: string): string {
    "offline-progress-" + courseParam
  }

  /** `!numPages`: no page count yet, or a zero one. */
  predicate PagesUnknown(p: Player) {
    p.numPages.None? || p.numPages.value == 0
  }

  /** The state after the page has loaded: progress and the completed flag
      come from the user's enrollment in this course, if any. */
  function Load(courseParam: string, courseNo: int, enrollments: seq<Client.Enrollment>, storage: map<string, OfflineRecord>): (p: Player)
    ensures p.calls == [] && !p.saving && p.numPages.None? && p.page == 1 && p.storage == storage
    ensures p.courseParam == courseParam && p.courseNo == courseNo
    ensures (exists i :: 0 <= i < |enrollments| && enrollments[i].courseId == courseNo) ==>
      var e := Seqs.Find(enrollments, (e: Client.Enrollment) => e.courseId == courseNo).value;
      e in enrollments && e.courseId == courseNo &&
      p.progress == e.progress && (p.completed <==> e.progress >= 100 || e.status == "completed")
    ensures (forall i :: 0 <= i < |enrollments| ==> enrollments[i].courseId != courseNo) ==>
      p.progress == 0 && !p.completed
  {
    match Seqs.Find(enrollments, (e: Client.Enrollment) => e.courseId == courseNo)
    case None => Player(courseParam, courseNo, None, 1, 0, false, false, storage, [])
    case Some(e) =>
      Player(courseParam, courseNo, None, 1, e.progress, false, e.progress >= 100 || e.status == "completed", storage, [])
  }

  /** `calcProgressFromPage`: the current progress while the page count is
      unknown, otherwise the rounded percentage of pages, capped at 100. */
  function CalcProgress(p: Player, page: int): (r: int)
    ensures PagesUnknown(p) ==> r == p.progress
    ensures !PagesUnknown(p) ==> r <= 100
    ensures !PagesUnknown(p) ==>
      var x := page as real / p.numPages.value as real * 100.0;
      r == if JsMath.Round(x) > 100 then 100 else JsMath.Round(x)
    ensures !PagesUnknown(p) && 0 <= page <= p.numPages.value ==> 0 <= r
    ensures !PagesUnknown(p) && page == p.numPages.value > 0 ==> r == 100
  {
    if PagesUnknown(p) then p.progress
    else
      var n := p.numPages.value;
      JsMath.RoundPercentIsRound(page, n);
      var value := JsMath.RoundPercent(page, n);
      var r := if value > 100 then 100 else value;
      if n > 0 then JsMath.RoundPercentBounds(page, n); r else r
  }

  /** `saveProgress`: dropped while a save is in flight; offline it
      overwrites this course's storage entry; online it sends the value and
      waits. */
  function Save(p: Player, value: int, online: bool): (p': Player)
    ensures p.saving ==> p' == p
    ensures !p.saving && !online ==>
      p' == p.(storage := p.storage[OfflineKey(p.courseParam) := OfflineRecord(p.courseNo, value)])
    ensures !p.saving && online ==> p' == p.(saving := true, calls := p.calls + [SaveProgress(p.courseNo, value)])
  {
    if p.saving then p
    else if !online then p.(storage := p.storage[OfflineKey(p.courseParam) := OfflineRecord(p.courseNo, value)])
    else p.(saving := true, calls := p.calls + [SaveProgress(p.courseNo, value)])
  }

  /** `handlePageChange`: ignored without a page count or for a page out of
      range; otherwise the page moves, and only a strictly higher progress
      is shown and saved; reaching 100 for the first time completes. */
  function HandlePageChange(p: Player, newPage: int, online: bool): (p': Player)
    ensures PagesUnknown(p) || newPage < 1 || newPage > p.numPages.value ==> p' == p
    ensures p'.progress >= p.progress
    ensures p'.progress > p.progress ==> p'.progress == CalcProgress(p, newPage) <= 100
    ensures p'.completed != p.completed ==> !p.completed && p'.progress >= 100
    ensures p'.calls != p.calls || p'.storage != p.storage ==> p'.progress > p.progress
    ensures p'.courseParam == p.courseParam && p'.courseNo == p.courseNo && p'.numPages == p.numPages
    ensures !PagesUnknown(p) && 1 <= newPage <= p.numPages.value ==>
      var np := CalcProgress(p, newPage);
      var moved := p.(page := newPage, progress := if np > p.progress then np else p.progress);
      && p'.page == newPage
      && (np <= p.progress ==> p' == moved)
      && (np > p.progress ==> p'.progress == np)
      && (np > p.progress && (np < 100 || p.completed) ==> p' == Save(moved, np, online))
      && (np > p.progress && np >= 100 && !p.completed ==>
            && p'.completed
            && p'.saving == Save(moved, np, online).saving
            && p'.storage == Save(moved, np, online).storage
            && p'.calls == Save(moved, np, online).calls + [CompleteCourse(p.courseNo)])
  {
    if PagesUnknown(p) || newPage < 1 || newPage > p.numPages.value then p
    else
      var p1 := p.(page := newPage);
      var np := CalcProgress(p, newPage);
      if np <= p.progress then p1
      else
        var p2 := Save(p1.(progress := np), np, online);
        if np >= 100 && !p.completed then
          p2.(completed := true, calls := p2.calls + [CompleteCourse(p.courseNo)])
        else p2
  }

  /** One page event: a loaded document sets the page count and a settled
      save clears the in-flight flag, each touching nothing else. */
  function Step(p: Player, e: Event): (p': Player)
    ensures e.DocumentLoaded? ==> p'.numPages == Some(e.pages) && p'.(numPages := p.numPages) == p
    ensures e.SaveSettled? ==> !p'.saving && p'.(saving := p.saving) == p
    ensures e.PageChange? ==> p' == HandlePageChange(p, e.newPage, e.online)
  {
    match e
    case DocumentLoaded(n) => p.(numPages := Some(n))
    case PageChange(newPage, online) => HandlePageChange(p, newPage, online)
    case SaveSettled => p.(saving := false)
  }

  /** The progress values sent to the server, in order. */
  function Saved(calls: seq<Call>): (vs: seq<int>)
    ensures |vs| <= |calls|
    ensures forall v :: v in vs <==> exists i :: 0 <= i < |calls| && calls[i] == SaveProgress(calls[i].courseNo, v)
  {
    if calls == [] then []
    else
      var init := calls[..|calls| - 1];
      var last := calls[|calls| - 1];
      assert forall i :: 0 <= i < |init| ==> init[i] == calls[i];
      Saved(init) + (if last.SaveProgress? then [last.progress] else [])
  }

  /** How many completion requests were sent. */
  function Completions(calls: seq<Call>): (n: nat)
    ensures n <= |calls|
    ensures n == 0 <==> forall i :: 0 <= i < |calls| ==> !calls[i].CompleteCourse?
  {
    if calls == [] then 0
    else
      var init := calls[..|calls| - 1];
      assert forall i :: 0 <= i < |init| ==> init[i] == calls[i];
      Completions(init) + (if calls[|calls| - 1].CompleteCourse? then 1 else 0)
  }

  lemma AppendCall(calls: seq<Call>, c: Call)
    ensures Saved(calls + [c]) == Saved(calls) + (if c.SaveProgress? then [c.progress] else [])
    ensures Completions(calls + [c]) == Completions(calls) + (if c.CompleteCourse? then 1 else 0)
  {
    assert (calls + [c])[..|calls|] == calls;
  }

  predicate StrictlyIncreasing(vs: seq<int>) {
    forall i, j :: 0 <= i < j < |vs| ==> vs[i] < vs[j]
  }

  /** What the page keeps true: saved values rise strictly and never pass
      the shown progress, and at most one completion request is sent, only
      after the page has marked the course completed. */
  predicate Good(p: Player) {
    && StrictlyIncreasing(Saved(p.calls))
    && (forall i :: 0 <= i < |Saved(p.calls)| ==> Saved(p.calls)[i] <= p.progress)
    && Completions(p.calls) <= 1
    && (Completions(p.calls) == 1 ==> p.completed)
  }

  /** Browser storage `b` differs from `a` at most under `key`. */
  ghost predicate SameStorageExcept(a: map<string, OfflineRecord>, b: map<string, OfflineRecord>, key: string) {
    forall k :: k != key ==> (k in a <==> k in b) && (k in a ==> a[k] == b[k])
  }

  /** Sending or storing the shown progress, when every earlier save is
      below it, keeps `Good`. */
  lemma SaveGood(p: Player, online: bool)
    requires Good(p)
    requires forall i :: 0 <= i < |Saved(p.calls)| ==> Saved(p.calls)[i] < p.progress
    ensures var p' := Save(p, p.progress, online);
      && Good(p')
      && p'.progress == p.progress && p'.completed == p.completed
      && Completions(p'.calls) == Completions(p.calls)
      && p.calls <= p'.calls
      && SameStorageExcept(p.storage, p'.storage, OfflineKey(p.courseParam))
  {
    if !p.saving && online {
      AppendCall(p.calls, SaveProgress(p.courseNo, p.progress));
    }
  }

  /** The first completion request keeps `Good`. */
  lemma CompleteGood(p: Player)
    requires Good(p) && !p.completed
    ensures Good(p.(completed := true, calls := p.calls + [CompleteCourse(p.courseNo)]))
  {
    AppendCall(p.calls, CompleteCourse(p.courseNo));
  }

  /** A page change keeps `Good` and writes storage only under this
      course's key. */
  lemma PageChangeGood(p: Player, newPage: int, online: bool)
    requires Good(p)
    ensures var p' := HandlePageChange(p, newPage, online);
      && Good(p')
      && (p.completed ==> p'.completed && Completions(p'.calls) == Completions(p.calls))
      && p.calls <= p'.calls
      && SameStorageExcept(p.storage, p'.storage, OfflineKey(p.courseParam))
  {
    if !(PagesUnknown(p) || newPage < 1 || newPage > p.numPages.value) {
      var np := CalcProgress(p, newPage);
      if np > p.progress {
        var p1 := p.(page := newPage, progress := np);
        SaveGood(p1, online);
        var p2 := Save(p1, np, online);
        if np >= 100 && !p.completed {
          CompleteGood(p2);
        }
      }
    }
  }

  /** One event keeps `Good`, never lowers progress, never unsets
      `completed`, only appends calls, and writes browser storage only
      under this course's key. */
  lemma StepGood(p: Player, e: Event)
    requires Good(p)
    ensures var p' := Step(p, e);
      && Good(p')
      && p'.progress >= p.progress
      && (p.completed ==> p'.completed && Completions(p'.calls) == Completions(p.calls))
      && p.calls <= p'.calls
      && SameStorageExcept(p.storage, p'.storage, OfflineKey(p.courseParam))
      && p'.courseParam == p.courseParam && p'.courseNo == p.courseNo
  {
    if e.PageChange? {
      PageChangeGood(p, e.newPage, e.online);
    }
  }

  /** The state after a sequence of events. */
  function Run(p: Player, es: seq<Event>): (p': Player)
    requires Good(p)
    ensures Good(p')
    ensures p'.progress >= p.progress
    ensures p.completed ==> p'.completed && Completions(p'.calls) == Completions(p.calls)
    ensures p.calls <= p'.calls
    ensures p'.courseParam == p.courseParam && p'.courseNo == p.courseNo
    decreases |es|
  {
    if es == [] then p
    else
      StepGood(p, es[0]);
      Run(Step(p, es[0]), es[1..])
  }

  /** A freshly loaded page is in a good state. */
  lemma LoadGood(courseParam: string, courseNo: int, enrollments: seq<Client.Enrollment>, storage: map<string, OfflineRecord>)
    ensures Good(Load(courseParam, courseNo, enrollments, storage))
  {
  }

  /** Whatever the user does, a session sends at most one completion
      request, and none when the course was already completed on load. */
  lemma AtMostOneCompletion(courseParam: string, courseNo: int, enrollments: seq<Client.Enrollment>, storage: map<string, OfflineRecord>, es: seq<Event>)
    ensures var p0 := Load(courseParam, courseNo, enrollments, storage);
      Completions(Run(p0, es).calls) <= 1
      && (p0.completed ==> Completions(Run(p0, es).calls) == 0)
  {
  }

  /** A page change while a save is in flight sends no save and writes no
      storage: the value is dropped, not queued. */
  lemma InFlightDropsSave(p: Player, newPage: int, online: bool)
    requires p.saving
    ensures var p' := HandlePageChange(p, newPage, online);
      Saved(p'.calls) == Saved(p.calls) && p'.storage == p.storage && p'.saving
  {
    var p' := HandlePageChange(p, newPage, online);
    if p'.calls != p.calls {
      AppendCall(p.calls, CompleteCourse(p.courseNo));
    }
  }

  /** Offline, an improvement overwrites this course's storage entry with
      the new progress and sends no save. */
  lemma OfflineOverwrites(p: Player, newPage: int)
    requires !p.saving
    requires !PagesUnknown(p) && 1 <= newPage <= p.numPages.value
    ensures var p' := HandlePageChange(p, newPage, false);
      CalcProgress(p, newPage) > p.progress ==>
        && p'.storage == p.storage[OfflineKey(p.courseParam) := OfflineRecord(p.courseNo, CalcProgress(p, newPage))]
        && Saved(p'.calls) == Saved(p.calls)
  {
    var p' := HandlePageChange(p, newPage, false);
    if p'.calls != p.calls {
      AppendCall(p.calls, CompleteCourse(p.courseNo));
    }
  }
}
