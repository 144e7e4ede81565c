# Job tracker client: job-list view model, list store and add-job form

A Dafny model of the client-side logic of a personal job-application tracker (a React
single-page app). It covers three components:

- **JobList** (`JobList.dfy`). It filters the fetched jobs by a case-insensitive search
  over company and title and by an exact "applied from" source. It shows them 15 per
  page, with `ceil(n / 15)` page buttons. Notes longer than 100 characters are cut to
  100 characters plus `"..."`, and a "Read More" popup shows the full note. A delete
  asks for confirmation, sends the request, and tells the parent to drop the job on
  success.
- **App** (`App.dfy`). It holds the cached `jobs` list, which starts empty. A created
  job is prepended, a deleted id is filtered out, and a fetch replaces the list. It is
  authenticated exactly when a non-empty token is stored.
- **AddJobForm** (`AddJobForm.dfy`). It holds a five-field form record and an optional
  error. One field changes at a time. A successful submit hands the server's record to
  the app and clears the form. A failed one shows the server's message or
  `"Error creating job"`.

Supporting modules:

- `Jobs.dfy` holds the `Job` record.
- `Sequences.dfy` holds JavaScript's `Array.prototype.filter` and `slice`, the latter
  with negative-index rules.
- `Text.dfy` holds ASCII `toLowerCase` and `includes`.

Components whose state React updates through setters are classes. Their handlers are
methods whose postconditions give the whole new state. The derived views (filtered
list, current page, page count, truncated note) are functions with lemmas. The browser
supplies four inputs, and each becomes a method parameter:

- the answer to `window.confirm`;
- the outcome of each HTTP request;
- the token read from local storage;
- the field name of an input event.

## Model

| member | source | states |
|---|---|---|
| `Sequences.Filter` | frontend/src/App.jsx:55 | `filter` keeps exactly the elements satisfying the predicate: each as often as in the input, none that fails it, in the original order (a subsequence) |
| `Sequences.FilterKeepsAll` | frontend/src/components/JobList.jsx:13-21 | filtering with a predicate every element satisfies returns the list unchanged |
| `Sequences.FilterIdempotent` | frontend/src/components/JobList.jsx:13-21 | filtering twice by the same predicate equals filtering once |
| `Sequences.Slice` | frontend/src/components/JobList.jsx:26 | for `0 <= start <= end`, `slice` is the sub-range clipped to the length, and never longer than the input |
| `Text.Lower` | frontend/src/components/JobList.jsx:15-16 | lower-casing yields no upper-case letter and leaves non-letters alone |
| `Text.LowerStr` | frontend/src/components/JobList.jsx:15-16 | `toLowerCase` keeps the length and lower-cases each character in place |
| `Text.LowerStrIdempotent` | frontend/src/components/JobList.jsx:15-16 | lower-casing a lower-cased string changes nothing |
| `Text.Contains` | frontend/src/components/JobList.jsx:15-16 | `includes` holds for the empty term and only for a term no longer than the text |
| `Text.ContainsIffOccurs` | frontend/src/components/JobList.jsx:15-16 | `includes` holds exactly when the term occurs at some offset of the text |
| `JobList.FilteredJobs` | frontend/src/components/JobList.jsx:13-21 | every listed job matches the search in company or title and the source filter; every matching job is listed as often as it occurs; input order is kept |
| `JobList.MatchesSearch` | frontend/src/components/JobList.jsx:14-16 | the empty search term matches every job; a match needs a term no longer than the company or the title |
| `JobList.MatchesSource` | frontend/src/components/JobList.jsx:17-19 | a job passes the source test exactly when the filter is empty or equals its source |
| `JobList.IsListed` | frontend/src/components/JobList.jsx:13-20 | with no term and no source filter every job is listed; a listed job under a non-empty filter has exactly that source |
| `JobList.FilterWithoutCriteria` | frontend/src/components/JobList.jsx:14-19 | an empty search term and an empty source filter list every job, in order |
| `JobList.FilterIdempotent` | frontend/src/components/JobList.jsx:13-21 | filtering the filtered list again with the same term and source changes nothing |
| `JobList.SourceFilterIsExact` | frontend/src/components/JobList.jsx:17-19 | with a non-empty source filter every listed job has exactly that source |
| `JobList.SearchIgnoresCase` | frontend/src/components/JobList.jsx:15-16 | a search term and its lower-case form list the same jobs |
| `JobList.SearchScenario` | frontend/src/components/JobList.jsx:13-21 | the term "acme" lists a job whose company is "Acme", with or without the "Indeed" source filter |
| `JobList.PageCount` | frontend/src/components/JobList.jsx:145-147 | the number of page buttons is the least count of 15-job pages that holds all filtered jobs |
| `JobList.CurrentJobs` | frontend/src/components/JobList.jsx:24-26 | page p >= 1 is the filtered list from (p-1)*15 to p*15, clipped to its length; a page holds at most 15 jobs; a page past the page count is empty |
| `JobList.PagesArePrefix` | frontend/src/components/JobList.jsx:24-26 | pages 1..k laid end to end are the first k*15 filtered jobs |
| `JobList.PagesReconstruct` | frontend/src/components/JobList.jsx:145-147 | pages 1..PageCount laid end to end are exactly the filtered list |
| `JobList.PaginationScenario` | frontend/src/components/JobList.jsx:24-26 | sixteen jobs give two pages, and page 2 holds only the sixteenth |
| `JobList.TruncateNote` | frontend/src/components/JobList.jsx:50-56 | a note of at most 100 characters is shown unchanged; a longer one as its first 100 characters plus "...", 103 characters in all |
| `JobList.ShowsReadMore` | frontend/src/components/JobList.jsx:124 | when "Read More" is offered the card shows 103 characters and the part before "..." is a strict prefix of the note; otherwise the card shows the note whole |
| `JobList.ReadMoreExactlyWhenCut` | frontend/src/components/JobList.jsx:123-131 | "Read More" appears exactly when the shown text differs from the note, or for a 103-character note ending in "..."; when it appears, the shown text before the ellipsis is a strict prefix of the note |
| `JobList.JobListView.constructor` | frontend/src/components/JobList.jsx:6-9 | the view starts with an empty search term, no source filter, page 1 and no selected note |
| `JobList.JobListView.Shown` | frontend/src/components/JobList.jsx:24-26 | the cards on screen are at most 15 jobs, and with a page number of at least 1 they are the filtered list from (page-1)*15 to page*15, clipped |
| `JobList.JobListView.PageButtons` | frontend/src/components/JobList.jsx:145-147 | the number of buttons is the least count of 15-job pages that holds all filtered jobs, that is ceil(n/15); pages 1 to that number together hold every filtered job once, in order |
| `JobList.JobListView.PopupOpen` | frontend/src/components/JobList.jsx:163 | the popup is open only for a selected note, and always for a selected note long enough to offer "Read More" |
| `JobList.JobListView.SetSearchTerm` | frontend/src/components/JobList.jsx:76 | typing sets the search term and nothing else (the page is not reset) |
| `JobList.JobListView.SetFilterAppliedFrom` | frontend/src/components/JobList.jsx:81 | choosing a source sets the filter and nothing else |
| `JobList.JobListView.Paginate` | frontend/src/components/JobList.jsx:28 | clicking a page button sets the current page to that number and nothing else; for every job list the cards shown are then the filtered list from (page-1)*15 to page*15, clipped |
| `JobList.JobListView.HandleReadMore` | frontend/src/components/JobList.jsx:58-60 | the selected note becomes the full note, so the popup opens for any note that offers "Read More" |
| `JobList.JobListView.HandleClosePopup` | frontend/src/components/JobList.jsx:62-64 | the selected note is cleared and the popup closes |
| `JobList.JobListView.HandleDelete` | frontend/src/components/JobList.jsx:35-47 | a request is sent exactly when the user confirms; the app's list loses the job only when it was sent and succeeded, and is untouched otherwise |
| `App.RemoveJob` | frontend/src/App.jsx:54-56 | no remaining job has the id; every job with another id is kept as often as it occurred, in order |
| `App.RemoveAbsentJob` | frontend/src/App.jsx:55 | deleting an id no job has leaves the list unchanged |
| `App.RemoveJobIdempotent` | frontend/src/App.jsx:55 | deleting the same id twice equals deleting it once |
| `App.DeleteUndoesAdd` | frontend/src/App.jsx:50-56 | deleting the id of a just-added job, when no older job shares it, restores the previous list |
| `App.DeleteScenario` | frontend/src/App.jsx:54-56 | deleting id 1 from the jobs [1, 2] leaves [2] |
| `App.TokenPresent` | frontend/src/App.jsx:23 | `!!token` holds exactly when the stored token is neither missing nor the empty string |
| `App.AppState.constructor` | frontend/src/App.jsx:17-19 | the app starts with no jobs, unauthenticated and loading |
| `App.AppState.CheckAuthentication` | frontend/src/App.jsx:21-25 | authenticated exactly when a non-empty token is stored; loading ends; jobs untouched |
| `App.AppState.FetchJobs` | frontend/src/App.jsx:31-42 | a successful fetch replaces the list with the server's; a failed one leaves it |
| `App.AppState.OnAuthenticationChange` | frontend/src/App.jsx:44-48 | jobs are fetched only when authenticated |
| `App.AppState.HandleAddJob` | frontend/src/App.jsx:50-52 | the new job is put in front; the list grows by one and the old jobs follow in order |
| `App.AppState.HandleDeleteJob` | frontend/src/App.jsx:54-56 | the list becomes `RemoveJob` of the old list: no job with the id, the others in order |
| `AddJobForm.Update` | frontend/src/components/AddJobForm.jsx:15-18 | the named field takes the new value and every other field keeps its value |
| `AddJobForm.UpdateIsUnique` | frontend/src/components/AddJobForm.jsx:15-18 | a form whose named field holds the new value and whose other fields are unchanged is exactly the spread update, so the per-field description fixes the whole record |
| `AddJobForm.UpdateLaws` | frontend/src/components/AddJobForm.jsx:15-18 | writing a field's own value changes nothing; a second write to a field overrides the first |
| `AddJobForm.ErrorMessage` | frontend/src/components/AddJobForm.jsx:36 | the error is the server's message when it is non-empty, else "Error creating job"; it is never empty |
| `AddJobForm.AddJobFormState.constructor` | frontend/src/components/AddJobForm.jsx:6-13 | the form starts with all five fields empty and no error |
| `AddJobForm.AddJobFormState.ErrorShown` | frontend/src/components/AddJobForm.jsx:113 | the error popup renders only for a set error, and, given the form invariant that a set error is never empty, exactly when an error is set |
| `AddJobForm.AddJobFormState.HandleChange` | frontend/src/components/AddJobForm.jsx:15-18 | only the named field changes; the error and whether its popup shows are untouched |
| `AddJobForm.AddJobFormState.HandleSubmit` | frontend/src/components/AddJobForm.jsx:20-38 | the current form is posted; on success the server's record is prepended to the app's jobs, the fields reset and the error clears; on failure the jobs and fields are unchanged and the error popup shows the message |
| `AddJobForm.AddJobFormState.HandleCloseError` | frontend/src/components/AddJobForm.jsx:40-42 | the error clears and the fields are untouched |

## Left out

- Network requests (the axios instance and its base URL) are not modelled. Each
  request's outcome is a parameter instead: `requestSucceeds`, `Option<seq<Job>>` for
  the fetch, and `SubmitOutcome` for the create request. Request headers and bodies
  are not modelled.
- Browser storage is not modelled. The stored token is a parameter of
  `CheckAuthentication`. Login, register and logout are not part of this model. Login
  writes the token and shows fixed messages. Register shows the server's message on
  success and a fixed one on failure. Logout clears the stored token and user name once
  the logout request succeeds, and only logs a failure.
- `formatDate` is not modelled. It delegates to the platform's locale date formatter.
  `createdAt` is carried but never used.
- Rendering is not modelled: JSX, styling, routing, the `Navigate` redirect, the
  "Loading..." screen and the active-page highlight.
- Asynchronous interleaving is not modelled. Each handler runs to completion, so a
  stale response cannot overtake a newer one. `console.error` logging is dropped.
- Case folding is ASCII only. JavaScript's full Unicode `toLowerCase` is not modelled.
- String lengths count Dafny characters. JavaScript counts UTF-16 code units, so notes
  with characters outside the Basic Multilingual Plane can be cut at another place.
- Job fields are always strings. The source would throw on a missing `company`,
  `job_title` or `note`. Missing fields are therefore not treated as empty strings, as
  one might expect; the model follows the code here.
- Source tags are free strings. The form's options (`Direct_Email`) and the filter's
  options (`Direct Email`, `ZipRecruiter`, `Dice`) disagree. Neither list is enforced:
  a job whose source is `Direct_Email` never matches the filter value `Direct Email`,
  and the model keeps that behaviour.
- `JobList.JobListView.Paginate`: requires a page number of at least 1. The only
  caller, a page button, passes `index + 1`. Pages are not clamped to the page count
  after the filter changes; `CurrentJobs` is then empty.
- Browser form validation is not modelled. The `required` attributes stop the browser
  from submitting an empty company, job title or source. `type="url"` rejects a
  malformed link; an empty link is accepted. `HandleSubmit` accepts and posts any form.
- An error message that is a non-string truthy value is not modelled. The server's
  message is an optional string.
