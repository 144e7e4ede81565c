/** The top-level component: the cached job list and the authentication flags. */
module App {
  import opened Jobs
  import opened Sequences

  /** `jobs.filter(job => job.id !== jobId)`. */
  function RemoveJob(jobs: seq<Job>, jobId: JobId): (r: seq<Job>)
    ensures forall i :: 0 <= i < |r| ==> r[i].id != jobId
    ensures forall j :: multiset(r)[j] == if j.id == jobId then 0 else multiset(jobs)[j]
    ensures IsSubsequence(r, jobs)
  {
    Filter(jobs, (job: Job) => job.id != jobId)
  }

  /** Removing an id that no job carries leaves the list as it was. */
  lemma RemoveAbsentJob(jobs: seq<Job>, jobId: JobId)
    requires forall i :: 0 <= i < |jobs| ==> jobs[i].id != jobId
    ensures RemoveJob(jobs, jobId) == jobs
  {
    FilterKeepsAll(jobs, (job: Job) => job.id != jobId);
  }

  /** Removing an id twice is removing it once. */
  lemma RemoveJobIdempotent(jobs: seq<Job>, jobId: JobId)
    ensures RemoveJob(RemoveJob(jobs, jobId), jobId) == RemoveJob(jobs, jobId)
  {
    RemoveAbsentJob(RemoveJob(jobs, jobId), jobId);
  }

  /** Deleting the id of a job just added, when no older job shares it, undoes the addition. */
  lemma DeleteUndoesAdd(jobs: seq<Job>, newJob: Job)
    requires forall i :: 0 <= i < |jobs| ==> jobs[i].id != newJob.id
    ensures RemoveJob([newJob] + jobs, newJob.id) == jobs
  {
    assert ([newJob] + jobs)[0] == newJob && ([newJob] + jobs)[1..] == jobs;
    RemoveAbsentJob(jobs, newJob.id);
  }

  /** Confirmed deletion of job 1 from the list [1, 2] leaves [2]. */
  lemma DeleteScenario(first: Job, second: Job)
    requires first.id == 1 && second.id == 2
    ensures RemoveJob([first, second], 1) == [second]
  {
  }

  /** `!!token`: a stored token authenticates exactly when it is a non-empty string. */
  function TokenPresent(storedToken: Option<string>): (r: bool)
    ensures r <==> storedToken !in {None, Some("")}
  {
    storedToken.Some? && storedToken.value != ""
  }

  class AppState {
    var jobs: seq<Job>
    var isAuthenticated: bool
    var loading: bool

    /** The component mounts with no jobs, unauthenticated and loading. */
    constructor ()
      ensures jobs == [] && !isAuthenticated && loading
    {
      jobs := [];
      isAuthenticated := false;
      loading := true;
    }

    /** Reads the stored token (a parameter here) and ends the loading phase. */
    method CheckAuthentication(storedToken: Option<string>)
      modifies this
      ensures isAuthenticated == TokenPresent(storedToken)
      ensures !loading
      ensures jobs == old(jobs)
    {
      isAuthenticated := TokenPresent(storedToken);
      loading := false;
    }

    /** Replaces the list with the server's answer; a failed request changes nothing. */
    method FetchJobs(response: Option<seq<Job>>)
      modifies this`jobs
      ensures jobs == if response.Some? then response.value else old(jobs)
    {
      if response.Some? {
        jobs := response.value;
      }
    }

    /** The effect that runs when `isAuthenticated` changes: fetch only when signed in. */
    method OnAuthenticationChange(response: Option<seq<Job>>)
      modifies this`jobs
      ensures jobs == if isAuthenticated && response.Some? then response.value else old(jobs)
    {
      if isAuthenticated {
        FetchJobs(response);
      }
    }

    /** Puts the job the server created in front of the existing ones. */
    method HandleAddJob(newJob: Job)
      modifies this`jobs
      ensures jobs == [newJob] + old(jobs)
      ensures |jobs| == |old(jobs)| + 1 && jobs[1..] == old(jobs)
    {
      jobs := [newJob] + jobs;
    }

    /** Drops every job carrying `jobId`; the others keep their order. */
    method HandleDeleteJob(jobId: JobId)
      modifies this`jobs
      ensures jobs == RemoveJob(old(jobs), jobId)
      ensures forall i :: 0 <= i < |jobs| ==> jobs[i].id != jobId
      ensures IsSubsequence(jobs, old(jobs))
    {
      jobs := RemoveJob(jobs, jobId);
    }
  }
}
