/** The job-list component: search and source filtering, pagination, note truncation,
    the note popup and the delete flow. */
module JobList {
  import opened Jobs
  import opened Text
  import opened Sequences
  import App

  const JobsPerPage := 15
  const NoteMaxLength := 100
  const Ellipsis := "..."

  // ---------------------------------------------------------------- filtering

  /** The company or the title contains the search term, ignoring case. */
  function MatchesSearch(job: Job, searchTerm: string): (r: bool)
    ensures searchTerm == "" ==> r
    ensures r ==> |searchTerm| <= |job.company| || |searchTerm| <= |job.jobTitle|
  {
    Contains(LowerStr(job.company), LowerStr(searchTerm)) ||
    Contains(LowerStr(job.jobTitle), LowerStr(searchTerm))
  }

  /** An empty source filter ("All Sources") admits every job; any other must match exactly. */
  function MatchesSource(job: Job, filterAppliedFrom: string): (r: bool)
    ensures r <==> filterAppliedFrom in {"", job.appliedFrom}
  {
    filterAppliedFrom != "" ==> job.appliedFrom == filterAppliedFrom
  }

  /** The callback given to `filter`: both the search and the source test pass. */
  function IsListed(job: Job, searchTerm: string, filterAppliedFrom: string): (r: bool)
    ensures searchTerm == "" && filterAppliedFrom == "" ==> r
    ensures r && filterAppliedFrom != "" ==> job.appliedFrom == filterAppliedFrom
  {
    MatchesSearch(job, searchTerm) && MatchesSource(job, filterAppliedFrom)
  }

  /** The jobs the list shows for a search term and a source filter: those that match,
      in their original order, none dropped and none repeated. */
  function FilteredJobs(jobs: seq<Job>, searchTerm: string, filterAppliedFrom: string): (r: seq<Job>)
    ensures forall i :: 0 <= i < |r| ==> IsListed(r[i], searchTerm, filterAppliedFrom)
    ensures forall j :: multiset(r)[j] == if IsListed(j, searchTerm, filterAppliedFrom) then multiset(jobs)[j] else 0
    ensures IsSubsequence(r, jobs)
  {
    Filter(jobs, (job: Job) => IsListed(job, searchTerm, filterAppliedFrom))
  }

  /** With no search term and no source filter the whole list is shown. */
  lemma FilterWithoutCriteria(jobs: seq<Job>)
    ensures FilteredJobs(jobs, "", "") == jobs
  {
    forall i | 0 <= i < |jobs| ensures IsListed(jobs[i], "", "") {
      assert [] <= LowerStr(jobs[i].company);
    }
    FilterKeepsAll(jobs, (job: Job) => IsListed(job, "", ""));
  }

  /** Filtering the filtered list again with the same inputs changes nothing. */
  lemma FilterIdempotent(jobs: seq<Job>, searchTerm: string, filterAppliedFrom: string)
    ensures FilteredJobs(FilteredJobs(jobs, searchTerm, filterAppliedFrom), searchTerm, filterAppliedFrom)
         == FilteredJobs(jobs, searchTerm, filterAppliedFrom)
  {
    Sequences.FilterIdempotent(jobs, (job: Job) => IsListed(job, searchTerm, filterAppliedFrom));
  }

  /** A non-empty source filter lists only jobs with exactly that source. */
  lemma SourceFilterIsExact(jobs: seq<Job>, searchTerm: string, filterAppliedFrom: string, i: int)
    requires filterAppliedFrom != ""
    requires 0 <= i < |FilteredJobs(jobs, searchTerm, filterAppliedFrom)|
    ensures FilteredJobs(jobs, searchTerm, filterAppliedFrom)[i].appliedFrom == filterAppliedFrom
  {
  }

  /** The search ignores case: the term and its lower-case form list the same jobs. */
  lemma SearchIgnoresCase(jobs: seq<Job>, searchTerm: string, filterAppliedFrom: string)
    ensures FilteredJobs(jobs, searchTerm, filterAppliedFrom)
         == FilteredJobs(jobs, LowerStr(searchTerm), filterAppliedFrom)
  {
    LowerStrIdempotent(searchTerm);
    FilterCongruent(jobs,
      (job: Job) => IsListed(job, searchTerm, filterAppliedFrom),
      (job: Job) => IsListed(job, LowerStr(searchTerm), filterAppliedFrom));
  }

  /** Searching "acme" finds the company "Acme". */
  lemma SearchScenario(job: Job)
    requires job.company == "Acme" && job.jobTitle == "Engineer" && job.appliedFrom == "Indeed"
    ensures FilteredJobs([job], "acme", "") == [job]
    ensures FilteredJobs([job], "acme", "Indeed") == [job]
  {
  }

  // ---------------------------------------------------------------- pagination

  /** `Math.ceil(n / jobsPerPage)`: the fewest pages that hold `n` jobs. */
  function PageCount(n: nat): (count: nat)
    ensures n <= count * JobsPerPage
    ensures count == 0 || (count - 1) * JobsPerPage < n
  {
    (n + JobsPerPage - 1) / JobsPerPage
  }

  /** `filtered.slice(indexOfFirstJob, indexOfLastJob)` for the 1-based `currentPage`. */
  function CurrentJobs(filtered: seq<Job>, currentPage: int): (page: seq<Job>)
    ensures |page| <= JobsPerPage
    ensures currentPage >= 1 ==>
      page == filtered[Min((currentPage - 1) * JobsPerPage, |filtered|)..Min(currentPage * JobsPerPage, |filtered|)]
    ensures currentPage > PageCount(|filtered|) ==> page == []
  {
    var indexOfLastJob := currentPage * JobsPerPage;
    var indexOfFirstJob := indexOfLastJob - JobsPerPage;
    Slice(filtered, indexOfFirstJob, indexOfLastJob)
  }

  /** Pages 1 to `k`, one after the other. */
  function Pages(filtered: seq<Job>, k: nat): seq<Job>
  {
    if k == 0 then [] else Pages(filtered, k - 1) + CurrentJobs(filtered, k)
  }

  /** The first `k` pages are the first `k * JobsPerPage` jobs. */
  lemma {:induction false} PagesArePrefix(filtered: seq<Job>, k: nat)
    ensures Pages(filtered, k) == filtered[..Min(k * JobsPerPage, |filtered|)]
  {
    if k > 0 {
      PagesArePrefix(filtered, k - 1);
      var a, b := Min((k - 1) * JobsPerPage, |filtered|), Min(k * JobsPerPage, |filtered|);
      assert filtered[..a] + filtered[a..b] == filtered[..b];
    }
  }

  /** The page buttons 1..PageCount together show every filtered job once, in order. */
  lemma PagesReconstruct(filtered: seq<Job>)
    ensures Pages(filtered, PageCount(|filtered|)) == filtered
  {
    PagesArePrefix(filtered, PageCount(|filtered|));
  }

  /** Sixteen jobs make two pages, the second holding only the sixteenth. */
  lemma PaginationScenario(filtered: seq<Job>)
    requires |filtered| == 16
    ensures PageCount(|filtered|) == 2
    ensures CurrentJobs(filtered, 2) == [filtered[15]]
  {
  }

  // ---------------------------------------------------------------- notes

  /** The note as a card shows it: notes over 100 characters are cut and get "...". */
  function TruncateNote(note: string): (shown: string)
    ensures |note| <= NoteMaxLength ==> shown == note
    ensures |note| > NoteMaxLength ==>
      |shown| == NoteMaxLength + |Ellipsis| && shown == note[..NoteMaxLength] + Ellipsis
  {
    if |note| > NoteMaxLength then note[..NoteMaxLength] + Ellipsis else note
  }

  /** The card offers "Read More" for notes over 100 characters. */
  function ShowsReadMore(note: string): (r: bool)
    ensures r ==> |TruncateNote(note)| == NoteMaxLength + |Ellipsis| && TruncateNote(note)[..NoteMaxLength] < note
    ensures !r ==> TruncateNote(note) == note
  {
    |note| > NoteMaxLength
  }

  /** "Read More" appears exactly when the card does not show the note as it is, with one
      exception: a note of 103 characters whose last three are "..." is shown unchanged
      and still offers "Read More". */
  lemma ReadMoreExactlyWhenCut(note: string)
    ensures ShowsReadMore(note) <==>
      TruncateNote(note) != note || (|note| == NoteMaxLength + |Ellipsis| && note[NoteMaxLength..] == Ellipsis)
    ensures ShowsReadMore(note) ==> TruncateNote(note)[..NoteMaxLength] < note
  {
  }

  // ---------------------------------------------------------------- component state

  class JobListView {
    var searchTerm: string
    var filterAppliedFrom: string
    var currentPage: int
    var selectedNote: Option<string>

    /** Pages are numbered from 1. */
    ghost predicate Valid()
      reads this
    {
      currentPage >= 1
    }

    constructor ()
      ensures Valid()
      ensures searchTerm == "" && filterAppliedFrom == "" && currentPage == 1 && selectedNote == None
    {
      searchTerm := "";
      filterAppliedFrom := "";
      currentPage := 1;
      selectedNote := None;
    }

    /** The jobs on the current page. */
    function Shown(jobs: seq<Job>): (page: seq<Job>)
      reads this
      ensures |page| <= JobsPerPage
      ensures Valid() ==>
        var filtered := FilteredJobs(jobs, searchTerm, filterAppliedFrom);
        page == filtered[Min((currentPage - 1) * JobsPerPage, |filtered|)..Min(currentPage * JobsPerPage, |filtered|)]
    {
      CurrentJobs(FilteredJobs(jobs, searchTerm, filterAppliedFrom), currentPage)
    }

    /** The number of page buttons: the fewest 15-job pages that hold the filtered
        list; pages 1 to that number together hold every filtered job once, in order. */
    function PageButtons(jobs: seq<Job>): (count: nat)
      reads this
      ensures |FilteredJobs(jobs, searchTerm, filterAppliedFrom)| <= count * JobsPerPage
      ensures count == 0 || (count - 1) * JobsPerPage < |FilteredJobs(jobs, searchTerm, filterAppliedFrom)|
      ensures Pages(FilteredJobs(jobs, searchTerm, filterAppliedFrom), count)
           == FilteredJobs(jobs, searchTerm, filterAppliedFrom)
    {
      var filtered := FilteredJobs(jobs, searchTerm, filterAppliedFrom);
      PagesReconstruct(filtered);
      PageCount(|filtered|)
    }

    /** `{selectedNote && …}`: the popup renders for a non-empty selected note. */
    function PopupOpen(): (r: bool)
      reads this
      ensures r ==> selectedNote.Some?
      ensures selectedNote.Some? && ShowsReadMore(selectedNote.value) ==> r
    {
      selectedNote.Some? && selectedNote.value != ""
    }

    /** Typing in the search box; the current page is kept. */
    method SetSearchTerm(value: string)
      requires Valid()
      modifies this`searchTerm
      ensures Valid() && searchTerm == value
    {
      searchTerm := value;
    }

    /** Choosing a source in the drop-down; the current page is kept. */
    method SetFilterAppliedFrom(value: string)
      requires Valid()
      modifies this`filterAppliedFrom
      ensures Valid() && filterAppliedFrom == value
    {
      filterAppliedFrom := value;
    }

    /** Clicking page button `pageNumber`; no clamping to the page count. */
    method Paginate(pageNumber: int)
      requires Valid() && pageNumber >= 1
      modifies this`currentPage
      ensures Valid() && currentPage == pageNumber
      ensures forall jobs: seq<Job> ::
        var filtered := FilteredJobs(jobs, searchTerm, filterAppliedFrom);
        Shown(jobs) == filtered[Min((pageNumber - 1) * JobsPerPage, |filtered|)..Min(pageNumber * JobsPerPage, |filtered|)]
    {
      currentPage := pageNumber;
    }

    /** "Read More" opens the popup on the full note. */
    method HandleReadMore(note: string)
      requires Valid()
      modifies this`selectedNote
      ensures Valid() && selectedNote == Some(note)
      ensures ShowsReadMore(note) ==> PopupOpen()
    {
      selectedNote := Some(note);
    }

    /** "Close" hides the popup. */
    method HandleClosePopup()
      requires Valid()
      modifies this`selectedNote
      ensures Valid() && selectedNote == None && !PopupOpen()
    {
      selectedNote := None;
    }

    /** Deleting a card: the request goes out only after the user confirms, and the
        parent removes the job only after the request succeeds. */
    method HandleDelete(app: App.AppState, jobId: JobId, confirmed: bool, requestSucceeds: bool)
      returns (requestSent: bool)
      modifies app`jobs
      ensures requestSent == confirmed
      ensures app.jobs == if confirmed && requestSucceeds then App.RemoveJob(old(app.jobs), jobId) else old(app.jobs)
    {
      requestSent := false;
      if confirmed {
        requestSent := true;
        if requestSucceeds {
          app.HandleDeleteJob(jobId);
        }
      }
    }
  }
}
