# Job listings widget — a Dafny model of its state and handlers

The page script `assets/starter.js` keeps four pieces of closure state:
- the job list `allJobs`;
- the tag list `manualFilters`;
- the user profile, whose `skills` list also acts as a filter;
- the list `favoriteJobIds`.

Its event handlers change this state step by step. `applyAllFilters`
then decides which jobs to show and which status line to print. This
project models that core.

- `seqs.dfy` (module `Seqs`) holds the Array idioms the script relies on,
  each as a function with its properties:
  - `filter`;
  - `indexOf`;
  - "push unless `includes`";
  - de-duplication through `new Set`.

  It also defines order preservation, as a subsequence relation.
- `strings.dfy` (module `Strings`) holds the string operations the script
  calls:
  - `trim`, with the ECMAScript white-space and line-terminator set;
  - `toLowerCase`, on ASCII letters;
  - `includes`, with a positional reference definition;
  - `join`;
  - `split` on one character;
  - decimal rendering of counts, with a reader that inverts it.
- `listings.dfy` (module `Listings`) holds the value-level logic:
  - job records;
  - the search haystack and the match predicate;
  - the visible list;
  - favourite toggling and selection;
  - skill and tag adding;
  - id assignment;
  - the job form: its parsing, edit round trip and validation;
  - update and delete of the job list;
  - the status line.
- `app.dfy` (module `App`) holds the class `JobApp`:
  - its fields are the closure state plus the search box text;
  - it has one method per handler;
  - each method states its whole new state through the functions above;
  - each method keeps the predicate `Consistent` (unique job ids, every
    favourite names a job, no duplicate favourites, filters or skills);
    `ToggleFavorite` keeps it only when the toggled id names a job, since
    adding an unknown id would make a favourite name no job.

Four behaviours of the code are worth stating plainly.
- Saving the job form with an id that no longer names a job changes nothing.
  The update branch maps over the list and never inserts.
- The search term is looked up in the space-joined haystack, not field by
  field. So a term can match across two fields that do not contain it
  separately, as `Listings.TermMaySpanFields` shows. A term hides every job
  when it is absent from every haystack (`Listings.AbsentTermShowsNone`);
  being absent from every single field is not enough.
- A tag filter is a substring test on the haystack, not a word test,
  although the comment at `assets/starter.js:709` says "as word". The tag
  "java" keeps a job whose only skill is "JavaScript"
  (`Listings.TagMayMatchInsideWord`), and a one-letter tag keeps every job
  whose haystack holds that letter.
- The status line counts only manual filters and profile skills as active
  filters. A search alone still prints "N jobs available", with N the total.

## Model

| member | source | states |
|---|---|---|
| Seqs.Filter | assets/starter.js:695-714 | `filter` keeps exactly the elements satisfying the predicate and never grows the list |
| Seqs.FilterCount | assets/starter.js:695-714 | filtering keeps every copy of a passing value and no copy of a failing one |
| Seqs.FilterIsSubsequence | assets/starter.js:695-714 | filtering keeps the survivors in their original order |
| Seqs.FilterAppend | assets/starter.js:695-714 | filtering a list extended by one element extends the result by that element exactly when it passes |
| Seqs.FilterKeepsAll | assets/starter.js:695-714 | a predicate every element passes removes nothing |
| Seqs.FilterKeepsNone | assets/starter.js:695-714 | a predicate no element passes leaves an empty list |
| Seqs.FilterCongruent | assets/starter.js:695-714 | two predicates that agree on the list's elements filter it identically |
| Seqs.FilterNoDup | assets/starter.js:595-597 | filtering a duplicate-free list leaves it duplicate-free |
| Seqs.Without | assets/starter.js:332 | `filter(s => s !== x)` removes every occurrence of `x` and keeps every copy of every other value, in order; it keeps no-duplicates and is the identity when `x` is absent |
| Seqs.Including | assets/starter.js:312-313 | push-unless-included: `x` is present afterwards, the list is unchanged when it was already there and extended by `x` at the end otherwise, no-duplicates preserved |
| Seqs.Dedup | assets/starter.js:693 | `[...new Set(s)]` has the same members as `s` and no duplicates |
| Seqs.IndexOf | assets/starter.js:400 | `indexOf` is -1 exactly when the element is absent, otherwise the position of its first occurrence |
| Strings.Trim | assets/starter.js:691 | `trim` returns the slice of the input between a blank prefix and a blank suffix, with no white space at either end; it is empty exactly on blank input and leaves trimmed strings alone |
| Strings.TrimStartFacts | assets/starter.js:691 | removing leading white space leaves a string that is empty or starts with a non-white-space character |
| Strings.TrimEndFacts | assets/starter.js:691 | removing trailing white space leaves a string that is empty or ends with a non-white-space character |
| Strings.Lower | assets/starter.js:705 | `toLowerCase` keeps the length and folds each character on its own |
| Strings.LowerIdempotent | assets/starter.js:693 | lower-casing twice is lower-casing once |
| Strings.LowerTrimCommute | assets/starter.js:691 | trimming and lower-casing commute, so the order in the term computation does not matter |
| Strings.Contains | assets/starter.js:707 | `includes` finds the empty needle and any prefix, and never a needle longer than the haystack |
| Strings.ContainsIffOccurs | assets/starter.js:707 | the scanning `includes` holds exactly when the needle occurs at some position |
| Strings.Join | assets/starter.js:697-705 | `join` includes every part in the result, and a single part is the result itself |
| Strings.ContainsAfter | assets/starter.js:697-705 | what a string includes, any extension of it at the front includes too |
| Strings.LowerContains | assets/starter.js:705 | inclusion survives lower-casing both strings |
| Strings.Split | assets/starter.js:562 | `split(',')` gives at least one piece and no piece contains the delimiter |
| Strings.JoinSplit | assets/starter.js:562 | joining the pieces of a split with the delimiter gives the original text back |
| Strings.Decimal | assets/starter.js:676 | a count renders as a non-empty run of decimal digits in canonical form: it starts with '0' only for zero |
| Strings.DecimalRoundTrip | assets/starter.js:676 | reading back a rendered count gives the count |
| Listings.Haystack | assets/starter.js:697-705 | every searched field, lower-cased, is included in the haystack, which holds no upper-case letter |
| Listings.Matches | assets/starter.js:707-713 | a job matches exactly when the term is empty or occurs at some position of its haystack, and every filter occurs at some position of it |
| Listings.SearchTerm | assets/starter.js:691 | the search term is empty exactly when the search input is blank |
| Listings.LowerAll | assets/starter.js:693 | each filter is lower-cased at its own position, one for one |
| Listings.CombinedFilters | assets/starter.js:693 | a filter is active exactly when it is the lower-cased form of a manual filter or a profile skill |
| Listings.VisibleJobs | assets/starter.js:690-714 | a job is visible exactly when it is in the list, the search is blank or its term occurs in the haystack, and every manual filter and skill occurs there ignoring case; order and the number of copies are kept |
| Listings.MatchesEvery | assets/starter.js:710-712 | the early-exit loop over the filters succeeds exactly when every filter occurs in the haystack |
| Listings.KeepJob | assets/starter.js:697-713 | the callback keeps a job exactly when the term check and every filter check pass on its haystack |
| Listings.FilterJobs | assets/starter.js:695-714 | running the callback over the jobs in turn yields exactly the filtered list |
| Listings.NoFilterShowsAll | assets/starter.js:691-713 | a blank search with no manual filter and no skill shows every job in order |
| Listings.AbsentTermShowsNone | assets/starter.js:707 | a term found in no job's haystack hides every job |
| Listings.OnlyTagSetMatters | assets/starter.js:693 | only the set of tags matters, not their order, repetition or whether they came from manual filters or skills |
| Listings.SearchIgnoresCase | assets/starter.js:691 | changing the search input's case does not change what is shown |
| Listings.TermMaySpanFields | assets/starter.js:697-707 | a term can match across the space between two fields that do not contain it |
| Listings.FieldPrefixOccurs | assets/starter.js:697-705 | every prefix of a lower-cased searched field occurs in the haystack |
| Listings.TagMayMatchInsideWord | assets/starter.js:709-712 | the tag "java" keeps a job whose only skill is "JavaScript", although no searched field is "java" |
| Listings.Toggled | assets/starter.js:398-402 | a toggle removes one copy of a present id or adds one copy of an absent id |
| Listings.ToggleFlips | assets/starter.js:398-402 | on a duplicate-free list a toggle flips the id's membership, leaves every other id's membership alone and keeps the list duplicate-free |
| Listings.ToggleTwice | assets/starter.js:398-402 | toggling twice restores membership, and the list itself when the id was absent |
| Listings.FavoriteJobs | assets/starter.js:385 | the favourites tab shows exactly the jobs whose id is a favourite, every copy, in list order |
| Listings.SkillAdded | assets/starter.js:306-319 | blank input and a skill already present change nothing; otherwise the trimmed input is appended; no duplicates are introduced |
| Listings.SkillAddIdempotent | assets/starter.js:310-313 | adding the same skill twice is adding it once |
| Listings.TagAdded | assets/starter.js:733-734 | a tag is appended only when non-empty and absent, keeping the list duplicate-free |
| Listings.TagAddIdempotent | assets/starter.js:734 | clicking the same tag twice is clicking it once |
| Listings.MaxId | assets/starter.js:554 | `Math.max` over the ids bounds every id and is one of them |
| Listings.NextId | assets/starter.js:554 | a new id exceeds every id in use, is 1 for an empty list and otherwise one more than an existing id |
| Listings.TrimAll | assets/starter.js:562 | `map(s => s.trim())` trims each piece in place |
| Listings.ParseSkills | assets/starter.js:562 | every skill read from the form is non-empty, trimmed and comma-free |
| Listings.ParseJoinedSkills | assets/starter.js:493 | well-formed skills joined with ", " for the edit form are read back unchanged |
| Listings.JobFromForm | assets/starter.js:553-567 | a job built from the form has the given id and date, both flags cleared, trimmed fields and well-formed skills |
| Listings.FindJob | assets/starter.js:482 | `find` by id fails exactly when no job has that id, and otherwise returns the first listed job with that id |
| Listings.EditForm | assets/starter.js:479-499 | a falsy id opens an empty form, an unknown id opens nothing, a known id opens that job's form |
| Listings.EditRoundTrip | assets/starter.js:485-494 | opening a saved job for editing and saving it unchanged gives the same job, with only the date and the two flags reset |
| Listings.Updated | assets/starter.js:570 | the update keeps the length and replaces exactly the jobs carrying the id, everything else in place |
| Listings.UpdateReplacesOne | assets/starter.js:568-570 | an update never inserts: an unknown id leaves the list unchanged, a known one replaces only that position |
| Listings.UpdateKeepsIds | assets/starter.js:570 | an update keeps the set of ids and their uniqueness |
| Listings.AddKeepsUnique | assets/starter.js:551-573 | appending a job with the next id adds exactly that fresh id and keeps ids unique |
| Listings.Deleted | assets/starter.js:595 | deletion removes exactly the jobs with that id, keeps every copy of the others in order, removes the id from the id set and keeps ids unique |
| Listings.DeleteKeepsUnique | assets/starter.js:595 | filtering out an id keeps the remaining ids unique |
| Listings.ValidateJobForm | assets/starter.js:196-218 | one error for a blank company, one for a blank position, one for a non-blank logo that is not a URL, no duplicates; no errors exactly when the form is valid |
| Listings.ValidateProfileForm | assets/starter.js:178-188 | the profile form fails, with the single name error, exactly when the name is blank |
| Listings.StatusText | assets/starter.js:673-680 | the status line reports both counts when filters are active and only the total otherwise, and each count can be read back from it |
| App.JobApp.constructor | assets/starter.js:794-798 | the app starts from the loaded jobs, profile and favourites, with no manual filter and an empty search box |
| App.JobApp.ApplyAllFilters | assets/starter.js:690-719 | yields exactly the visible jobs for the current search, filters and skills, and the status line for their count |
| App.JobApp.Search | assets/starter.js:827 | typing in the search box changes only the search text |
| App.JobApp.ToggleFavorite | assets/starter.js:398-402 | the favourites become the toggled list; nothing else changes; consistency is kept for an id that names a job |
| App.JobApp.AddSkill | assets/starter.js:306-319 | the skills become the result of adding the input; nothing else changes; consistency is kept |
| App.JobApp.RemoveSkill | assets/starter.js:326-336 | the clicked skill leaves the skills list; nothing else changes; consistency is kept |
| App.JobApp.SaveProfile | assets/starter.js:289-298 | a non-blank name stores the trimmed name and position; a blank one reports the error and changes nothing |
| App.JobApp.AddTagFilter | assets/starter.js:732-737 | a clicked tag is added to the manual filters as `TagAdded` says; nothing else changes |
| App.JobApp.RemoveTagFilter | assets/starter.js:761-768 | the removed tag, and only it, leaves the manual filters; nothing else changes |
| App.JobApp.ClearFilters | assets/starter.js:779-783 | the manual filters and the search box are emptied; the skills stay |
| App.JobApp.SubmitJobForm | assets/starter.js:548-579 | an invalid form changes nothing; no id appends a job with the next id; an id updates the jobs carrying it; job ids stay unique and favourites stay valid |
| App.JobApp.DeleteJob | assets/starter.js:593-597 | once confirmed, the job leaves the list and its id leaves the favourites, the rest in order; unconfirmed, nothing changes |

## Left out

- Rendering, modals, tabs, error messages in the DOM and the wiring of event listeners are not modelled. They produce markup only.
- `localStorage`, `JSON` and the `fetch` of `data.json` are not modelled. The loaded values become the constructor's parameters.
- The logo check with `new URL` is the parameter `isUrl` of `ValidateJobForm` and `SubmitJobForm`, because URL parsing is a browser library call.
- `new Date().toLocaleDateString()` is the parameter `today`, because the clock is outside the model.
- `confirm('Delete this job?')` is the parameter `confirmed`, because it is a user dialog.
- Strings.Lower: folds only the ASCII letters A–Z. Full Unicode `toLowerCase` is outside the model.
- Listings.NextId: holds only while ids stay below 2^53. Ids are unbounded integers here, but JavaScript numbers are doubles, and `Math.max(...ids) + 1` rounds back to 2^53 when the largest id is 2^53, giving a duplicate id.
- Listings.AddKeepsUnique: holds only while ids stay below 2^53, for the same reason as `NextId`.
- Form ids are integers, with 0 standing for every falsy result of `Number` on the hidden field (empty, `0`, `NaN`). Fractional and other non-integer ids are not modelled.
- `Number(jobId)` in `toggleFavorite` and the click handlers is not modelled. Ids arrive as integers.
- The Enter-key test in `handleSkillAdd` and the clearing of the skill input are not modelled. `AddSkill` is the handler after Enter.
- The `|| ''` and `|| []` fallbacks for missing job fields are not modelled. Every job record carries every field.
- The favourites counter (`renderFavoritesCount`) is not modelled. It only displays the list's length.
