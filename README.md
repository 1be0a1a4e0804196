# HR web app: skill lists, record tables, roles, paging and dashboard counts

This project models the small pieces of state-changing and counting logic
inside the React components of a role-based HR web application (Admin, HR
and Applicant dashboards over a hosted realtime database). The rest of the
application is I/O and rendering.

- **Skill lists** (`Skills`, `ApplicantDashboard`, `JobForm`). The applicant
  profile and the HR job form both keep a tag list of skills. Adding trims
  the typed text and ignores blanks and duplicates. Removing filters out
  every copy. The profile stores the list as one comma-separated line and
  parses it back on load. The job list edits skills as a `', '`-joined line.
- **Record tables** (`JobList`, `EmployeesPage`). Local copies of the job and
  employee tables support add, edit (overlay of the form onto the old
  record) and delete. Each change follows a store write. The local table
  changes only when that write succeeds.
- **Roles and module permissions** (`RoleManagement`). This covers per-user
  role changes, per-role module toggles, the batched update written on save,
  and the list of distinct roles.
- **Employee table paging** (`EmployeeList`). Ten rows per page, a guarded
  page change, and the truncated skills cell.
- **Employee form** (`EmployeeForm`). Four required fields, a prefill from
  the edited employee, and `status` defaulting to `Active`.
- **Dashboard counts** (`HRDashboard`). Employees per position and gender,
  per-position tallies, per-employee rows grouped by position with size
  labels, and the vacancy total.

Records of the store are untyped JavaScript objects. They are modelled as
`map<string, Value>` (`Records`), so that the spread `{ ...a, ...b }` is map
union and a missing field is a missing key. `x || d` falls back to `d` for a
missing field, empty text and zero; a field holding a value of another type
than the one read is handled as listed under "## Left out". JavaScript `trim` strips the ECMAScript
white-space and line-terminator characters (`Text.IsSpace`). Every network
write is a `writeOk: bool` parameter. A `confirm` dialog is a `confirmed:
bool` parameter. A generated key (`push().key`, the time-based job id) is a
parameter too. Helper modules `Text`, `Seqs` and `Records` hold the string,
sequence and record operations the components share.

## Model

| member | source | states |
|---|---|---|
| ApplicantDashboard.InitialSkills | src/app/components/ApplicantDashboard.js:21-25 | a stored array is kept as it is; a stored string becomes clean skills (non-empty, trimmed, comma-free); a missing or numeric field gives no skills |
| ApplicantDashboard.SavedSkillsReload | src/app/components/ApplicantDashboard.js:100-106 | the `join(',')` line written by save loads back as the same list when every skill is non-empty, trimmed and comma-free |
| ApplicantDashboard.ReloadIsStable | src/app/components/ApplicantDashboard.js:21-25 | a loaded line, saved and loaded again, gives the same list |
| ApplicantDashboard.ProfileEditor.constructor | src/app/components/ApplicantDashboard.js:27-43 | profile fields copied with `''` for missing ones, skills normalised as on load, the input box empty |
| ApplicantDashboard.ProfileEditor.AddSkill | src/app/components/ApplicantDashboard.js:45-53 | the new list is the add-skill result on the old list, and a duplicate-free list stays duplicate-free |
| ApplicantDashboard.ProfileEditor.RemoveSkill | src/app/components/ApplicantDashboard.js:55-60 | the list loses every copy of the skill and keeps the rest in order |
| ApplicantDashboard.ProfileEditor.SetInput | src/app/components/ApplicantDashboard.js:297 | the input box holds the typed text |
| ApplicantDashboard.ProfileEditor.HandleKeyDown | src/app/components/ApplicantDashboard.js:62-68 | Enter or `,` adds the typed text and clears the box; any other key changes neither |
| ApplicantDashboard.ProfileEditor.SavePayload | src/app/components/ApplicantDashboard.js:101-106 | the save writes exactly email, contactNumber and gender with the profile's values, and the skills as one `','`-joined line |
| ApplicantDashboard.ProfileEditor.Save | src/app/components/ApplicantDashboard.js:94-111 | nothing is sent without a user; otherwise the payload is sent and the error line is cleared, or set to the failure message when the write fails |
| Skills.Parse | src/app/components/HRDashboard/JobList.js:47 | split on `,`, trim, drop empties: no parsed skill is empty, has surrounding white space or holds a comma |
| Skills.ParseEmpty | src/app/components/HRDashboard/JobList.js:108 | the empty line parses to no skills |
| Skills.ParseJoinComma | src/app/components/ApplicantDashboard.js:105 | parsing the `','`-join of a clean list gives the list back |
| Skills.ParseJoinCommaBlank | src/app/components/HRDashboard/JobList.js:23-47 | parsing the `', '`-join of a clean list gives the list back |
| Skills.ParseIdempotent | src/app/components/ApplicantDashboard.js:24 | re-serialising a parsed line and parsing it again changes nothing |
| Skills.CommaSkillSplitsOnReload | src/app/components/ApplicantDashboard.js:105 | a skill holding a comma comes back as two skills, so the comma-free condition of the round trip is needed |
| Skills.AddSkill | src/app/components/ApplicantDashboard.js:45-53 | the trimmed input is appended exactly when it is non-empty and absent, and otherwise the list is unchanged even if it already holds duplicates; the old list stays a prefix, the only new member is the trimmed input, and no duplicate is introduced |
| Skills.AddSkillIdempotent | src/app/components/HRDashboard/JobForm.js:33-37 | adding the same text twice equals adding it once |
| Skills.AddThenRemove | src/app/components/ApplicantDashboard.js:45-60 | adding a fresh non-blank skill and then removing it restores the original list |
| Skills.RemoveKeepsInvariants | src/app/components/HRDashboard/JobForm.js:41-43 | removing keeps a clean duplicate-free list clean and duplicate-free |
| Seqs.WithoutContents | src/app/components/ApplicantDashboard.js:58 | the filter drops every copy of the value and keeps every other element with its multiplicity |
| Seqs.WithoutConcat | src/app/components/HRDashboard/JobForm.js:42 | the filter distributes over concatenation, so the survivors keep their order |
| Seqs.WithoutNoDup | src/app/components/HRDashboard/JobForm.js:42 | filtering a duplicate-free list leaves it duplicate-free |
| Seqs.Distinct | src/app/components/RoleManagement.js:81 | `[...new Set(xs)]` holds every element of `xs` exactly once and nothing else |
| Seqs.DistinctFirstOccurrenceOrder | src/app/components/RoleManagement.js:81 | the distinct elements come in order of first occurrence |
| Seqs.DistinctOfNoDup | src/app/components/RoleManagement.js:81 | a duplicate-free list is its own de-duplication |
| JobForm.JobForm.constructor | src/app/components/HRDashboard/JobForm.js:8-31 | mounting resets the form for its `job` |
| JobForm.JobForm.Reset | src/app/components/HRDashboard/JobForm.js:18-31 | with a job: title, department, salaryRange copied with `''` fallback and skills with `[]` fallback; without: every field empty; the skill box cleared in both cases |
| JobForm.JobForm.SetSkillInput | src/app/components/HRDashboard/JobForm.js:111 | the skill box holds the typed text |
| JobForm.JobForm.HandleAddSkill | src/app/components/HRDashboard/JobForm.js:33-39 | the list is the add-skill result on the old list and the box, and the box is cleared even when the input was rejected |
| JobForm.JobForm.HandleRemoveSkill | src/app/components/HRDashboard/JobForm.js:41-43 | every copy of the skill goes, the rest keep their order |
| JobForm.JobForm.HandleKeyDown | src/app/components/HRDashboard/JobForm.js:45-50 | Enter or `,` runs the add; other keys change nothing |
| JobForm.JobForm.HandleSubmit | src/app/components/HRDashboard/JobForm.js:52-63 | passes exactly the four fields, untrimmed, and the job's `id` |
| Records.JobFields | src/app/components/HRDashboard/JobForm.js:55-60 | the job payload has exactly the keys title, department, salaryRange and skills, holding the given values |
| JobList.Outcome | src/app/components/HRDashboard/JobList.js:37-52 | a save succeeds exactly when the title is present and not blank, department and salary range are present, and the write succeeds; a blank title is refused before anything else |
| JobList.EditedJob | src/app/components/HRDashboard/JobList.js:42-48 | the edited record overlays trimmed title, department, salaryRange and parsed skills; every other field of the old record is kept |
| JobList.NewJob | src/app/components/HRDashboard/JobList.js:104-110 | the new record has exactly the trimmed fields, the parsed skills and an empty applicant list |
| JobList.UneditedSaveKeepsJob | src/app/components/HRDashboard/JobList.js:16-48 | opening a job with trimmed text and clean skills and saving it unchanged gives back the same record |
| JobList.JobList.constructor | src/app/components/HRDashboard/JobList.js:5-14 | the local table starts as the given jobs, with no edit, no add and an empty form |
| JobList.JobList.StartEdit | src/app/components/HRDashboard/JobList.js:16-25 | editing the job: the form holds its text fields and its skills joined with `', '` |
| JobList.JobList.EditField | src/app/components/HRDashboard/JobList.js:254-275 | typing into one form field changes that field only |
| JobList.JobList.CancelEdit | src/app/components/HRDashboard/JobList.js:27-35 | editing ends and the form is emptied |
| JobList.JobList.SaveEdit | src/app/components/HRDashboard/JobList.js:37-64 | on success only the edited key changes, to the edited record, and editing ends; on a blank title, a failed write or a thrown error the table and the editing id are unchanged |
| JobList.JobList.HandleDelete | src/app/components/HRDashboard/JobList.js:66-83 | after confirmation and a successful write exactly `id` is gone; otherwise the table is unchanged |
| JobList.JobList.StartAdd | src/app/components/HRDashboard/JobList.js:88-96 | adding starts with an empty form |
| JobList.JobList.SaveAdd | src/app/components/HRDashboard/JobList.js:97-126 | on success the new record is stored under the new key, the other entries are kept and adding ends; otherwise nothing changes |
| JobList.JobList.CancelAdd | src/app/components/HRDashboard/JobList.js:128-136 | adding ends and the form is emptied |
| RoleManagement.RoleChanged | src/app/components/RoleManagement.js:42-48 | every user with the uid gets the new role and keeps its other fields; length, order and every other user are unchanged |
| RoleManagement.RoleChangeRoles | src/app/components/RoleManagement.js:42-48 | after a role change every role in use was in use before or is the new role |
| RoleManagement.UniqueRoles | src/app/components/RoleManagement.js:81 | each user's role appears once, and only roles some user has appear |
| RoleManagement.UniqueRolesFirstUseOrder | src/app/components/RoleManagement.js:81 | the roles come in order of first use |
| RoleManagement.Toggled | src/app/components/RoleManagement.js:52-55 | the module is in the result exactly when it was not in the list; every other module keeps its membership |
| RoleManagement.ToggleTwiceMembership | src/app/components/RoleManagement.js:53-55 | toggling twice restores every module's membership |
| RoleManagement.ToggleOnOffRestores | src/app/components/RoleManagement.js:53-55 | toggling an absent module on and off restores the exact list |
| RoleManagement.ModuleToggled | src/app/components/RoleManagement.js:50-58 | the role's list is toggled, a role with no list starting from `[]`; every other role's list is unchanged |
| RoleManagement.RolePathInjective | src/app/components/RoleManagement.js:68-70 | distinct users write distinct `profiles/{uid}/role` paths, none of them `permissions` |
| RoleManagement.RoleUpdatesKeys | src/app/components/RoleManagement.js:66-69 | the role part of the update holds one path per user and nothing else |
| RoleManagement.RoleUpdatesValue | src/app/components/RoleManagement.js:66-69 | a user's path holds that user's role unless a later user shares the uid |
| RoleManagement.PathCount | src/app/components/RoleManagement.js:66-69 | with distinct uids the role part has exactly one key per user |
| RoleManagement.SaveUpdates | src/app/components/RoleManagement.js:66-70 | the update holds the whole permission table under `permissions` and otherwise only role paths |
| RoleManagement.SaveUpdatesDistinctUsers | src/app/components/RoleManagement.js:66-70 | with distinct uids each user's path holds that user's role, and the update has one key per user plus `permissions` |
| RoleManagement.RoleManager.constructor | src/app/components/RoleManagement.js:10-33 | the screen starts from the loaded users and permission table with no messages |
| RoleManagement.RoleManager.HandleRoleChange | src/app/components/RoleManagement.js:42-48 | the user list becomes the role-changed list |
| RoleManagement.RoleManager.HandleModuleToggle | src/app/components/RoleManagement.js:50-58 | the permission table becomes the toggled table, an `undefined` role keyed as `"undefined"` |
| RoleManagement.RoleManager.Save | src/app/components/RoleManagement.js:60-79 | the update built user by user equals the batched-update function; the messages report the write's outcome and the saving flag ends cleared |
| EmployeeList.TotalPages | src/app/employees/EmployeeList.js:7-10 | the page count is the fewest pages of ten that hold every entry (`ceil(n / 10)`) |
| EmployeeList.PageOf | src/app/employees/EmployeeList.js:12-14 | page `p` shows entries from `(p-1)*10` up to `min(n, p*10)`, at most ten, and at least one on an existing page |
| EmployeeList.PagesUpToPrefix | src/app/employees/EmployeeList.js:9-14 | the first `k` pages are the first `min(n, 10k)` entries in order |
| EmployeeList.AllPagesShowAll | src/app/employees/EmployeeList.js:9-14 | concatenating every page gives every entry exactly once, in order |
| EmployeeList.Pager.constructor | src/app/employees/EmployeeList.js:6 | the table starts on page 1 |
| EmployeeList.Pager.GoToPage | src/app/employees/EmployeeList.js:19-23 | the page changes exactly when the request is between 1 and the page count; otherwise nothing changes |
| EmployeeList.NoEntriesNoPages | src/app/employees/EmployeeList.js:10-23 | with no entries there are no pages and no page request is honoured |
| EmployeeList.SkillsCellOf | src/app/employees/EmployeeList.js:47-50 | the ellipsis shows exactly when there are more than two skills; a row without skills shows nothing |
| EmployeeList.SkillsCellShowsFirstTwo | src/app/employees/EmployeeList.js:48 | for clean skills the cell names exactly the first two skills, or all when fewer |
| EmployeeForm.BlankFieldsPass | src/app/components/HRDashboard/EmployeeForm.js:28 | the required check tests emptiness, not trimmed emptiness, so blank values pass |
| EmployeeForm.Payload | src/app/components/HRDashboard/EmployeeForm.js:32-42 | the submitted record has exactly the eight fields with the values held |
| EmployeeForm.PrefillSubmitRoundTrip | src/app/components/HRDashboard/EmployeeForm.js:13-44 | an employee with all eight fields filled, opened and submitted unchanged, sends those eight values back |
| EmployeeForm.EmployeeForm.constructor | src/app/components/HRDashboard/EmployeeForm.js:4-24 | every field starts empty except `status` = `Active`, then the prefill runs |
| EmployeeForm.EmployeeForm.Prefill | src/app/components/HRDashboard/EmployeeForm.js:13-24 | with an employee every field is copied, a missing one as `''` and status as `Active`; without one nothing changes |
| EmployeeForm.EmployeeForm.HandleSubmit | src/app/components/HRDashboard/EmployeeForm.js:26-45 | refused exactly when name, email, department or position is empty; otherwise the eight-field payload and `employee?.id` |
| EmployeesPage.FormEmployeeAsWritten | src/app/employees/page.js:87 | the form gets the stored record under a truthy listed editing id, else nothing |
| EmployeesPage.FormEmployee | src/app/employees/page.js:87 | the form gets the stored record with its key added as `id`, else nothing |
| EmployeesPage.RouteOf | src/app/employees/page.js:39-44 | a submit edits exactly when the id is truthy, under the key the id names (text as is, a number in decimal, an array joined with `,`); a missing, empty or zero id adds |
| EmployeesPage.NumericIdEditsDecimalKey | src/app/employees/page.js:39-43 | a numeric id such as 5 edits the key `"5"` (and -12 the key `"-12"`); the id 0 adds |
| EmployeesPage.EditOfAddedEmployeeAddsCopy | src/app/employees/page.js:38-52 | as written, editing an employee whose record carries no `id` routes the submit to the add path |
| EmployeesPage.EditRoutesToKey | src/app/employees/page.js:39-44 | with the key passed as `id`, editing a listed employee updates that key |
| EmployeesPage.IdNotAFormField | src/app/components/HRDashboard/EmployeeForm.js:13-44 | adding `id` to a record changes none of the eight form fields |
| EmployeesPage.Merged | src/app/employees/page.js:43 | the merged record has every form field with the form's value and every other old field unchanged |
| EmployeesPage.EditLeavesOthers | src/app/employees/page.js:41-44 | an edit leaves every other key unchanged |
| EmployeesPage.EmployeesPage.constructor | src/app/employees/page.js:10-20 | the page starts from the loaded table with no edit and the form hidden |
| EmployeesPage.EmployeesPage.HandleEdit | src/app/employees/page.js:22-25 | the form opens on that id and receives that employee's record with its key as `id` (the corrected form record of the finding below), or nothing for an unknown id; the table is unchanged |
| EmployeesPage.EmployeesPage.OpenAdd | src/app/employees/page.js:66-69 | the form opens empty |
| EmployeesPage.EmployeesPage.HandleDelete | src/app/employees/page.js:27-36 | after confirmation and a successful remove exactly `id` is gone; otherwise nothing changes |
| EmployeesPage.EmployeesPage.HandleFormSubmit | src/app/employees/page.js:38-55 | any truthy id, of any type, merges the form into the key it names; any other id stores the form under the new key; the form closes; a failed write changes nothing |
| EmployeesPage.EmployeesPage.HandleCancel | src/app/employees/page.js:57-60 | the form closes and editing ends |
| HRDashboard.BarData | src/app/components/HRDashboard/HRDashboard.js:97-108 | one row per distinct position (`Unknown` when missing) in order of first appearance, holding the genders of that position's employees |
| HRDashboard.BarCellCounts | src/app/components/HRDashboard/HRDashboard.js:105 | a row's count for gender `g` is the number of employees with that position and gender |
| HRDashboard.BarDataCountsEveryone | src/app/components/HRDashboard/HRDashboard.js:99-106 | the counts of all rows add up to the number of employees |
| HRDashboard.ComputeBarData | src/app/components/HRDashboard/HRDashboard.js:97-108 | the one-pass dictionary accumulation yields the bar data |
| HRDashboard.JobTalliesCounts | src/app/components/HRDashboard/HRDashboard.js:115-119 | each emitted tally's count is its position's number of employees, at least 1, and equals that position's bar total |
| HRDashboard.ComputeJobTallies | src/app/components/HRDashboard/HRDashboard.js:110-120 | the one-pass accumulation yields the per-position tallies |
| HRDashboard.Labelled | src/app/components/HRDashboard/HRDashboard.js:144-149 | each member of a group keeps its fields and gets the label `"<job> (<size>)"` |
| Text.NatToString | src/app/components/HRDashboard/HRDashboard.js:147 | the group size prints as at least one decimal digit with no leading zero, as a template literal prints a number |
| Text.NatToStringValue | src/app/components/HRDashboard/HRDashboard.js:147 | the printed group size reads back as the size |
| HRDashboard.GroupsOverRowsOf | src/app/components/HRDashboard/HRDashboard.js:144-149 | over distinct positions, the rows of position `j` are its labelled group when `j` is listed and none otherwise |
| HRDashboard.SkillMatchRowsOfJob | src/app/components/HRDashboard/HRDashboard.js:132-149 | for every position `j`, the chart's rows of `j` are exactly the employees holding `j`, in input order, each with its name (`Unnamed` when missing), its percentage (0 when missing) and the label `"<j> (<group size>)"` |
| HRDashboard.SkillMatchOneRowEach | src/app/components/HRDashboard/HRDashboard.js:132-149 | the chart has exactly one row per employee |
| HRDashboard.GroupsOverSnoc | src/app/components/HRDashboard/HRDashboard.js:144-149 | listing one more position appends exactly that position's labelled group to the rows |
| HRDashboard.GroupsOverConcat | src/app/components/HRDashboard/HRDashboard.js:144-149 | the rows for two lists of positions one after the other are the rows of the first list followed by those of the second |
| HRDashboard.GroupsOverSplitAt | src/app/components/HRDashboard/HRDashboard.js:144-149 | the rows split at the `k`-th position into the earlier positions' groups, the `k`-th group, and the later positions' groups |
| HRDashboard.SkillMatchGroupBlock | src/app/components/HRDashboard/HRDashboard.js:132-149 | for every position, in order of first appearance, its group is one contiguous block starting right after the earlier positions' groups, holding exactly its employees in listed order, each with the position and the label `"<job> (<size>)"` |
| HRDashboard.ComputeSkillMatch | src/app/components/HRDashboard/HRDashboard.js:129-150 | grouping in one pass and flattening gives the chart |
| HRDashboard.WithJobSize | src/app/components/HRDashboard/HRDashboard.js:132-141 | a position's group has one member per employee holding it |
| HRDashboard.TotalVacanciesAppend | src/app/components/HRDashboard/HRDashboard.js:255 | the vacancy total over two lists of jobs is the sum of their totals |
| HRDashboard.TotalVacanciesPermutation | src/app/components/HRDashboard/HRDashboard.js:255 | the vacancy total, missing values counted as 0, does not depend on the order of the jobs |

## Findings

| source | as written | input that shows it | evidently intended | confidence | as-written member | corrected member |
|---|---|---|---|---|---|---|
| src/app/employees/page.js:38-52, 87 | the form is given `employees[editingId]`, and the submit edits only when `employee?.id` is truthy; stored employee records are the form's eight fields and carry no `id` | add an employee through the page, then edit it: `id` is `undefined`, so the edit is stored as a second employee under a new key | editing updates the employee under its own key | high for records written by this page; not executed | EmployeesPage.EditOfAddedEmployeeAddsCopy | EmployeesPage.EditRoutesToKey |

The page class (`EmployeesPage.EmployeesPage.FormRecord`) uses the corrected
form record, which carries the key as `id`.

## Left out

- All network reads and writes, sign-in and file uploads: a write is a `writeOk` parameter that precedes the local update. Loading is the constructors' argument.
- The photo and résumé uploads of the applicant profile, the `photoURL`/`resumeURL` fields and `handleApply`: they are storage and database calls with no local logic.
- `confirm` and `alert` dialogs: confirm is a boolean parameter; alerts are not modelled.
- The stale-closure read in the applicant `addSkill` (it tests `profile.skills` but appends to the queued state): the model treats both as the same list.
- React effect scheduling and batching: each handler runs to completion on the current state.
- JavaScript key ordering of objects: `Object.values` on the dashboard is modelled as insertion order, although JavaScript lists integer-like keys first.
- Floating-point work: the salary sums and the pie chart, and the `toFixed(1)` average of the per-position tallies. Only the counts and the integer total of percentages are modelled.
- Dates and time: the time-based job id and the new employee key are parameters.
- The plain text-field setters of the job form (title, department, salary range) and of the employee form: they are direct assignments.
- JobList.JobList.StartEdit: requires a listed id. For an unlisted id the source throws while reading the job.
- JobList.JobList.SaveEdit: requires an editing id, since the save button only exists on the row being edited.
- JobList.FormFor: a job whose `skills` is stored as text or a number makes the source throw on `join`; the model prefills an empty line instead.
- Text fields that hold a non-text value are treated as missing by `x || d`.
- HRDashboard.TotalVacanciesPermutation: holds of numeric or missing vacancies only. A job whose `vacancies` is non-empty text is read as 0, whereas `acc + (job.vacancies || 0)` in the source concatenates text, which depends on order. No component writes `vacancies`.
- HRDashboard.JobTalliesCounts: the summed `skillsPercentage` reads a text value as 0; the source would concatenate it. The counts are unaffected. No component writes `skillsPercentage`.
- JobForm.JobForm.Reset: a stored `skills` that is text or a non-zero number is kept by `job.skills || []` in the source; the model reads it as `[]`. No component writes `skills` in that form for jobs.
- HRDashboard.BarData: a gender literally named `job` collides with the row's `job` label key in the source, turning the label into text such as `Engineer1`; the model counts it as an ordinary gender. No component writes `gender`.
- Numbers are integers: a fractional or non-finite numeric id, percentage or vacancy count is not modelled.
- RoleManagement.RoleManager.Save: an `undefined` role is written as a missing value; the store's rejection of `undefined` values is not modelled.
