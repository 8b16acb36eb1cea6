/** The value-level logic of the job-listings widget: job records, the
    visibility filter of `applyAllFilters`, the favourites, skill and tag
    lists, the job form and its validation, and the status line. */
module Listings {
  import opened Seqs
  import opened Strings

  datatype Option<T> = None | Some(value: T)

  /** A job listing. `isNew` is the record's `new` flag. */
  datatype Job = Job(
    id: int,
    company: string,
    position: string,
    logo: string,
    contract: string,
    location: string,
    role: string,
    level: string,
    skills: seq<string>,
    description: string,
    postedAt: string,
    featured: bool,
    isNew: bool)

  // ---------------------------------------------------------------------
  // Visibility filter
  // ---------------------------------------------------------------------

  /** The fields a job is searched in: company, position, description,
      location, role, level and the skills. */
  function SearchedFields(job: Job): seq<string>
  {
    [job.company, job.position, job.description, job.location, job.role, job.level] + job.skills
  }

  /** The text a job is searched in: its searched fields joined by single
      spaces and lower-cased. Every searched field, lower-cased, is included
      in it, and it holds no upper-case letter. */
  function Haystack(job: Job): (hay: string)
    ensures forall k :: 0 <= k < |SearchedFields(job)| ==> Contains(hay, Lower(SearchedFields(job)[k]))
    ensures forall i :: 0 <= i < |hay| ==> !('A' <= hay[i] <= 'Z')
  {
    var fields := SearchedFields(job);
    var joined := Join(" ", fields);
    assert forall k :: 0 <= k < |fields| ==> Contains(Lower(joined), Lower(fields[k])) by {
      forall k | 0 <= k < |fields| ensures Contains(Lower(joined), Lower(fields[k])) {
        LowerContains(joined, fields[k]);
      }
    }
    Lower(joined)
  }

  /** The search term: the input trimmed and lower-cased; empty exactly when
      the input is blank. */
  function SearchTerm(input: string): (t: string)
    ensures t == [] <==> IsBlank(input)
  {
    Lower(Trim(input))
  }

  /** Every string of `xs` lower-cased, in order. */
  function LowerAll(xs: seq<string>): (r: seq<string>)
    ensures |r| == |xs|
    ensures forall k :: 0 <= k < |xs| ==> r[k] == Lower(xs[k])
    ensures forall f :: f in r <==> exists t :: t in xs && f == Lower(t)
  {
    if xs == [] then [] else [Lower(xs[0])] + LowerAll(xs[1..])
  }

  /** The tag filters: the distinct entries of the manual filters followed by
      the profile skills, lower-cased. A filter is in the result exactly when
      it is the lower-cased form of a manual filter or of a skill. */
  function CombinedFilters(manual: seq<string>, skills: seq<string>): (r: seq<string>)
    ensures forall f :: f in r <==> exists t :: t in manual + skills && f == Lower(t)
  {
    LowerAll(Dedup(manual + skills))
  }

  /** The callback given to `allJobs.filter`: the term (if any) and every tag
      filter occur in the job's haystack. */
  predicate Matches(job: Job, term: string, filters: seq<string>): (b: bool)
    ensures b <==> (term == [] || exists i :: OccursAt(Haystack(job), term, i))
                   && forall f :: f in filters ==> exists i :: OccursAt(Haystack(job), f, i)
  {
    var hay := Haystack(job);
    ContainsIffOccurs(hay, term);
    assert forall f :: f in filters ==> (Contains(hay, f) <==> exists i :: OccursAt(hay, f, i)) by {
      forall f | f in filters ensures Contains(hay, f) <==> exists i :: OccursAt(hay, f, i) {
        ContainsIffOccurs(hay, f);
      }
    }
    (term == [] || Contains(hay, term)) && forall f :: f in filters ==> Contains(hay, f)
  }

  function Matcher(term: string, filters: seq<string>): Job -> bool
  {
    (job: Job) => Matches(job, term, filters)
  }

  /** When a job is shown, stated on the raw inputs: a blank search, or the
      term occurring in the haystack, and every manual filter and every skill
      occurring in it, ignoring case. */
  ghost predicate Shown(job: Job, search: string, manual: seq<string>, skills: seq<string>)
  {
    var hay := Haystack(job);
    (IsBlank(search) || Contains(hay, Lower(Trim(search))))
    && forall t :: t in manual + skills ==> Contains(hay, Lower(t))
  }

  /** The jobs `applyAllFilters` shows: exactly those that are shown, in
      their original order. */
  function VisibleJobs(jobs: seq<Job>, search: string, manual: seq<string>, skills: seq<string>): (r: seq<Job>)
    ensures IsSubsequence(r, jobs)
    ensures forall job :: job in r <==> job in jobs && Shown(job, search, manual, skills)
    ensures forall job :: multiset(r)[job] == if Shown(job, search, manual, skills) then multiset(jobs)[job] else 0
  {
    var p := Matcher(SearchTerm(search), CombinedFilters(manual, skills));
    FilterIsSubsequence(jobs, p);
    FilterCount(jobs, p);
    Filter(jobs, p)
  }

  /** The `for ... of` loop over the combined filters, which stops at the
      first filter missing from the haystack. */
  method MatchesEvery(hay: string, filters: seq<string>) returns (ok: bool)
    ensures ok <==> forall f :: f in filters ==> Contains(hay, f)
  {
    var k := 0;
    while k < |filters|
      invariant 0 <= k <= |filters|
      invariant forall m :: 0 <= m < k ==> Contains(hay, filters[m])
    {
      if !Contains(hay, filters[k]) {
        assert filters[k] in filters;
        return false;
      }
      k := k + 1;
    }
    return true;
  }

  /** The callback given to `allJobs.filter`, run on one job: the term
      check, then the loop over the filters. */
  method KeepJob(job: Job, term: string, filters: seq<string>) returns (keep: bool)
    ensures keep <==> Matches(job, term, filters)
  {
    var hay := Haystack(job);
    if term != [] && !Contains(hay, term) {
      return false;
    }
    keep := MatchesEvery(hay, filters);
  }

  /** `allJobs.filter(...)` as the loop that runs the callback on each job
      in turn. */
  method FilterJobs(jobs: seq<Job>, term: string, filters: seq<string>) returns (visible: seq<Job>)
    ensures visible == Filter(jobs, Matcher(term, filters))
  {
    var p := Matcher(term, filters);
    visible := [];
    var i := 0;
    while i < |jobs|
      invariant 0 <= i <= |jobs|
      invariant visible == Filter(jobs[..i], p)
    {
      var keep := KeepJob(jobs[i], term, filters);
      assert keep == p(jobs[i]);
      FilterAppend(jobs[..i], jobs[i], p);
      assert jobs[..i + 1] == jobs[..i] + [jobs[i]];
      visible := visible + if keep then [jobs[i]] else [];
      i := i + 1;
    }
    assert jobs[..|jobs|] == jobs;
  }

  /** With a blank search, no manual filter and no skill, every job is shown,
      in order. */
  lemma NoFilterShowsAll(jobs: seq<Job>, search: string)
    requires IsBlank(search)
    ensures VisibleJobs(jobs, search, [], []) == jobs
  {
    var p := Matcher(SearchTerm(search), CombinedFilters([], []));
    assert CombinedFilters([], []) == [];
    FilterKeepsAll(jobs, p);
  }

  /** A term that occurs in no job's haystack hides every job. */
  lemma AbsentTermShowsNone(jobs: seq<Job>, search: string, manual: seq<string>, skills: seq<string>)
    requires !IsBlank(search)
    requires forall job :: job in jobs ==> !Contains(Haystack(job), SearchTerm(search))
    ensures VisibleJobs(jobs, search, manual, skills) == []
  {
    var term := SearchTerm(search);
    FilterKeepsNone(jobs, Matcher(term, CombinedFilters(manual, skills)));
  }

  /** The result depends only on which tags are among the manual filters and
      skills: not on their order, their repetitions, or on which of the two
      lists a tag comes from. */
  lemma OnlyTagSetMatters(jobs: seq<Job>, search: string,
                          m1: seq<string>, s1: seq<string>, m2: seq<string>, s2: seq<string>)
    requires forall t :: t in m1 + s1 <==> t in m2 + s2
    ensures VisibleJobs(jobs, search, m1, s1) == VisibleJobs(jobs, search, m2, s2)
  {
    var term := SearchTerm(search);
    var f1, f2 := CombinedFilters(m1, s1), CombinedFilters(m2, s2);
    assert forall f :: f in f1 <==> f in f2;
    FilterCongruent(jobs, Matcher(term, f1), Matcher(term, f2));
  }

  /** Searching ignores the case of the search input. */
  lemma SearchIgnoresCase(jobs: seq<Job>, search: string, manual: seq<string>, skills: seq<string>)
    ensures VisibleJobs(jobs, Lower(search), manual, skills) == VisibleJobs(jobs, search, manual, skills)
  {
    LowerTrimCommute(search);
    LowerIdempotent(Trim(search));
    assert SearchTerm(Lower(search)) == SearchTerm(search);
  }

  /** The haystack joins the fields with spaces, so a term can match across
      two fields although neither field contains it. */
  lemma TermMaySpanFields()
    ensures var job := Job(1, "Ab", "Cd", "", "", "", "", "", [], "", "", false, false);
            && Matches(job, "b c", [])
            && !Contains(Lower(job.company), "b c") && !Contains(Lower(job.position), "b c")
  {
    var job := Job(1, "Ab", "Cd", "", "", "", "", "", [], "", "", false, false);
    var joined := Join(" ", SearchedFields(job));
    var parts: seq<string> := ["Ab", "Cd", "", "", "", ""];
    assert SearchedFields(job) == parts;
    assert parts[1..] == ["Cd", "", "", "", ""];
    assert joined == "Ab" + " " + Join(" ", parts[1..]);
    assert joined[1] == 'b' && joined[2] == ' ' && joined[3] == 'C';
    var hay := Haystack(job);
    assert hay == Lower(joined);
    assert hay[1..4] == "b c" by {
      assert hay[1] == 'b' && hay[2] == ' ' && hay[3] == 'c';
    }
    assert OccursAt(hay, "b c", 1);
    assert |Lower(job.company)| == 2 && |Lower(job.position)| == 2;
  }

  /** Any prefix of a searched field, once lower-cased, occurs in the
      haystack. */
  lemma FieldPrefixOccurs(job: Job, k: nat, p: string)
    requires k < |SearchedFields(job)|
    requires |p| <= |SearchedFields(job)[k]| && Lower(SearchedFields(job)[k])[..|p|] == p
    ensures exists i :: OccursAt(Haystack(job), p, i)
  {
    var hay := Haystack(job);
    var word := Lower(SearchedFields(job)[k]);
    assert Contains(hay, word);
    ContainsIffOccurs(hay, word);
    var i :| OccursAt(hay, word, i);
    assert hay[i..i + |p|] == word[..|p|];
    assert OccursAt(hay, p, i);
  }

  /** A tag filter is a substring test on the haystack, not a word test: the
      tag "java" keeps a job whose only skill is "JavaScript", although no
      searched field is "java". */
  lemma TagMayMatchInsideWord()
    ensures var job := Job(1, "", "", "", "", "", "", "", ["JavaScript"], "", "", false, false);
            && Matches(job, [], ["java"])
            && forall k :: 0 <= k < |SearchedFields(job)| ==> Lower(SearchedFields(job)[k]) != "java"
  {
    var job := Job(1, "", "", "", "", "", "", "", ["JavaScript"], "", "", false, false);
    var fields := SearchedFields(job);
    assert fields == ["", "", "", "", "", "", "JavaScript"];
    assert Lower(fields[6])[..4] == "java" by {
      var word := Lower(fields[6]);
      assert word[0] == 'j' && word[1] == 'a' && word[2] == 'v' && word[3] == 'a';
    }
    FieldPrefixOccurs(job, 6, "java");
    assert Matches(job, [], ["java"]) by {
      assert forall f :: f in ["java"] ==> exists i :: OccursAt(Haystack(job), f, i);
    }
    forall k | 0 <= k < |fields| ensures Lower(fields[k]) != "java" {
      assert |Lower(fields[k])| != 4;
    }
  }

  // ---------------------------------------------------------------------
  // Favourites
  // ---------------------------------------------------------------------

  /** `toggleFavorite`: push the id when `indexOf` finds nothing, otherwise
      splice out the occurrence it found. */
  function Toggled(ids: seq<int>, id: int): (r: seq<int>)
    ensures multiset(r) == if id in ids then multiset(ids) - multiset{id} else multiset(ids) + multiset{id}
  {
    var i := IndexOf(ids, id);
    if i == -1 then ids + [id]
    else
      assert ids == ids[..i] + [ids[i]] + ids[i + 1..];
      ids[..i] + ids[i + 1..]
  }

  /** On a duplicate-free list, a toggle flips the membership of `id`, keeps
      every other id's membership, and keeps the list duplicate-free. */
  lemma ToggleFlips(ids: seq<int>, id: int)
    requires NoDup(ids)
    ensures id in Toggled(ids, id) <==> id !in ids
    ensures forall other :: other != id ==> (other in Toggled(ids, id) <==> other in ids)
    ensures NoDup(Toggled(ids, id))
  {
    if id in ids {
      RemoveAt(ids, IndexOf(ids, id));
    } else {
      NoDupSnoc(ids, id);
    }
  }

  /** Removing position `i` from a duplicate-free list removes exactly the
      element found there. */
  lemma RemoveAt(s: seq<int>, i: int)
    requires NoDup(s) && 0 <= i < |s|
    ensures forall x :: x in s[..i] + s[i + 1..] <==> x in s && x != s[i]
    ensures NoDup(s[..i] + s[i + 1..])
  {
    var r := s[..i] + s[i + 1..];
    assert |r| == |s| - 1;
    assert forall k :: 0 <= k < |r| ==> r[k] == s[if k < i then k else k + 1];
    forall x | x in r ensures x in s && x != s[i] {
      var k :| 0 <= k < |r| && r[k] == x;
    }
    forall x | x in s && x != s[i] ensures x in r {
      var k :| 0 <= k < |s| && s[k] == x;
      assert r[if k < i then k else k - 1] == x;
    }
  }

  /** Toggling twice restores the original membership; when the id was not a
      favourite the list itself comes back. */
  lemma ToggleTwice(ids: seq<int>, id: int)
    requires NoDup(ids)
    ensures forall x :: x in Toggled(Toggled(ids, id), id) <==> x in ids
    ensures id !in ids ==> Toggled(Toggled(ids, id), id) == ids
  {
    ToggleFlips(ids, id);
    ToggleFlips(Toggled(ids, id), id);
    if id !in ids {
      var once := ids + [id];
      assert IndexOf(once, id) == |ids|;
      assert once[..|ids|] == ids;
    }
  }

  function HasFavoriteId(ids: seq<int>): Job -> bool
  {
    (job: Job) => job.id in ids
  }

  /** `renderFavoriteJobs`: the jobs whose id is a favourite, in list order. */
  function FavoriteJobs(jobs: seq<Job>, ids: seq<int>): (r: seq<Job>)
    ensures forall job :: job in r <==> job in jobs && job.id in ids
    ensures IsSubsequence(r, jobs)
    ensures forall job :: multiset(r)[job] == if job.id in ids then multiset(jobs)[job] else 0
  {
    FilterIsSubsequence(jobs, HasFavoriteId(ids));
    FilterCount(jobs, HasFavoriteId(ids));
    Filter(jobs, HasFavoriteId(ids))
  }

  // ---------------------------------------------------------------------
  // Profile skills and manual filters
  // ---------------------------------------------------------------------

  /** `handleSkillAdd`: the trimmed input, when not blank, is appended unless
      already present. */
  function SkillAdded(skills: seq<string>, input: string): (r: seq<string>)
    ensures IsBlank(input) ==> r == skills
    ensures !IsBlank(input) ==> Trim(input) in r && forall s :: s in r <==> s in skills || s == Trim(input)
    ensures Trim(input) in skills ==> r == skills
    ensures skills <= r && |r| <= |skills| + 1
    ensures NoDup(skills) ==> NoDup(r)
  {
    var v := Trim(input);
    if v == [] then skills else Including(skills, v)
  }

  /** Clicking the same tag twice is clicking it once. */
  lemma TagAddIdempotent(filters: seq<string>, tag: string)
    ensures TagAdded(TagAdded(filters, tag), tag) == TagAdded(filters, tag)
  {
  }

  /** Adding the same skill twice is adding it once. */
  lemma SkillAddIdempotent(skills: seq<string>, input: string)
    ensures SkillAdded(SkillAdded(skills, input), input) == SkillAdded(skills, input)
  {
  }

  /** The tag-click branch of `handleJobListClick`: a non-empty tag is
      appended unless already present. */
  function TagAdded(filters: seq<string>, tag: string): (r: seq<string>)
    ensures tag == [] || tag in filters ==> r == filters
    ensures tag != [] && tag !in filters ==> r == filters + [tag]
    ensures NoDup(filters) ==> NoDup(r)
  {
    if tag == [] then filters else Including(filters, tag)
  }

  // ---------------------------------------------------------------------
  // Job ids and the manage form
  // ---------------------------------------------------------------------

  /** No two jobs share an id. */
  predicate UniqueIds(jobs: seq<Job>)
  {
    forall i, k :: 0 <= i < k < |jobs| ==> jobs[i].id != jobs[k].id
  }

  function IdsOf(jobs: seq<Job>): set<int>
  {
    set job | job in jobs :: job.id
  }

  /** `Math.max(...allJobs.map(j => j.id))` on a non-empty list. */
  function MaxId(jobs: seq<Job>): (m: int)
    requires jobs != []
    ensures forall job :: job in jobs ==> job.id <= m
    ensures exists job :: job in jobs && job.id == m
  {
    if |jobs| == 1 then jobs[0].id
    else
      var rest := MaxId(jobs[1..]);
      assert forall job :: job in jobs[1..] ==> job in jobs;
      assert jobs == [jobs[0]] + jobs[1..];
      if jobs[0].id >= rest then jobs[0].id else rest
  }

  /** The id a new job receives: one more than the largest id, or 1 for an
      empty list. It is larger than every id in use. */
  function NextId(jobs: seq<Job>): (r: int)
    ensures forall job :: job in jobs ==> job.id < r
    ensures jobs == [] ==> r == 1
    ensures jobs != [] ==> exists job :: job in jobs && r == job.id + 1
  {
    if jobs == [] then 1 else MaxId(jobs) + 1
  }

  /** The manage form's inputs. `id` is the hidden id field after `trim` and
      `Number`, with 0 standing for every falsy outcome (empty, 0, NaN);
      `skills` is the comma-separated text. */
  datatype JobForm = JobForm(
    id: int,
    company: string,
    position: string,
    logo: string,
    contract: string,
    location: string,
    role: string,
    level: string,
    skills: string,
    description: string)

  /** A skill tag as the form produces it: non-empty, trimmed, comma-free. */
  predicate WellFormedSkill(s: string)
  {
    s != [] && IsTrimmed(s) && ',' !in s
  }

  /** Every element of `parts` trimmed. */
  function TrimAll(parts: seq<string>): (r: seq<string>)
    ensures |r| == |parts|
    ensures forall k :: 0 <= k < |r| ==> r[k] == Trim(parts[k])
  {
    if parts == [] then [] else [Trim(parts[0])] + TrimAll(parts[1..])
  }

  function NonEmpty(): string -> bool
  {
    (s: string) => s != []
  }

  /** `text.split(',').map(s => s.trim()).filter(Boolean)`: every resulting
      skill is well formed. */
  function ParseSkills(text: string): (r: seq<string>)
    ensures forall k :: 0 <= k < |r| ==> WellFormedSkill(r[k])
  {
    var pieces := Split(text, ',');
    var trimmed := TrimAll(pieces);
    var r := Filter(trimmed, NonEmpty());
    assert forall k :: 0 <= k < |r| ==> r[k] in trimmed;
    assert forall s :: s in trimmed ==> ',' !in s by {
      forall s | s in trimmed ensures ',' !in s {
        var k :| 0 <= k < |trimmed| && trimmed[k] == s;
        assert ',' !in pieces[k];
      }
    }
    r
  }

  /** A leading space before a piece does not change what `ParseSkills`
      reads from it. */
  lemma TrimmedPiecesSkipSpace(u: string)
    ensures TrimAll(Split([' '] + u, ',')) == TrimAll(Split(u, ','))
  {
    var p := Split(u, ',');
    SplitCons(' ', u, ',');
    TrimLeadingSpace(p[0]);
    var q := [[' '] + p[0]] + p[1..];
    assert TrimAll(q) == [Trim(q[0])] + TrimAll(q[1..]);
    assert q[1..] == p[1..];
    assert p == [p[0]] + p[1..];
    assert TrimAll(p) == [Trim(p[0])] + TrimAll(p[1..]);
  }

  /** Reading skills from `a, u` gives the well-formed skill `a` followed by
      what `u` gives. */
  lemma ParseSkillsCons(a: string, u: string)
    requires WellFormedSkill(a)
    ensures ParseSkills(a + ", " + u) == [a] + ParseSkills(u)
  {
    assert a + ", " + u == a + [','] + ([' '] + u);
    SplitAfterPiece(a, [' '] + u, ',');
    var tail := Split([' '] + u, ',');
    var pieces := [a] + tail;
    assert pieces[1..] == tail;
    assert TrimAll(pieces) == [a] + TrimAll(tail);
    TrimmedPiecesSkipSpace(u);
    var trimmed := [a] + TrimAll(Split(u, ','));
    assert trimmed[1..] == TrimAll(Split(u, ','));
  }

  /** Joining well-formed skills with ", " (as the edit form displays them)
      and reading them back gives the same skills. */
  lemma {:induction false} ParseJoinedSkills(skills: seq<string>)
    requires forall k :: 0 <= k < |skills| ==> WellFormedSkill(skills[k])
    ensures ParseSkills(Join(", ", skills)) == skills
  {
    if skills == [] {
      assert Split([], ',') == [[]];
      assert TrimAll([[]]) == [[]];
    } else if |skills| == 1 {
      SplitWhole(skills[0], ',');
      assert TrimAll([skills[0]]) == [skills[0]];
    } else {
      var rest := skills[1..];
      assert Join(", ", skills) == skills[0] + ", " + Join(", ", rest);
      ParseSkillsCons(skills[0], Join(", ", rest));
      ParseJoinedSkills(rest);
      assert skills == [skills[0]] + rest;
    }
  }

  /** The job `handleManageFormSubmit` builds from the form: trimmed fields,
      parsed skills, today's date, `featured` and `new` cleared. */
  function JobFromForm(form: JobForm, id: int, today: string): (job: Job)
    ensures job.id == id && job.postedAt == today && !job.featured && !job.isNew
    ensures Normalised(job)
  {
    Job(id, Trim(form.company), Trim(form.position), Trim(form.logo), Trim(form.contract),
        Trim(form.location), Trim(form.role), Trim(form.level), ParseSkills(form.skills),
        Trim(form.description), today, false, false)
  }

  /** A job whose text fields are trimmed and whose skills are well formed,
      as every job saved through the form is. */
  predicate Normalised(job: Job)
  {
    && IsTrimmed(job.company) && IsTrimmed(job.position) && IsTrimmed(job.logo)
    && IsTrimmed(job.contract) && IsTrimmed(job.location) && IsTrimmed(job.role)
    && IsTrimmed(job.level) && IsTrimmed(job.description)
    && forall k :: 0 <= k < |job.skills| ==> WellFormedSkill(job.skills[k])
  }

  /** The first job with the given id, as `allJobs.find` returns it. */
  function FindJob(jobs: seq<Job>, id: int): (r: Option<Job>)
    ensures r.None? <==> id !in IdsOf(jobs)
    ensures r.Some? ==> r.value in jobs && r.value.id == id
    ensures r.Some? ==> exists k :: 0 <= k < |jobs| && jobs[k] == r.value &&
                          forall m :: 0 <= m < k ==> jobs[m].id != id
  {
    if jobs == [] then None
    else if jobs[0].id == id then Some(jobs[0])
    else
      assert forall job :: job in jobs[1..] ==> job in jobs;
      assert jobs == [jobs[0]] + jobs[1..];
      var r := FindJob(jobs[1..], id);
      if r.Some? then
        var k :| 0 <= k < |jobs[1..]| && jobs[1..][k] == r.value &&
                 forall m :: 0 <= m < k ==> jobs[1..][m].id != id;
        assert jobs[k + 1] == r.value;
        assert forall m :: 0 <= m < k + 1 ==> jobs[m].id != id by {
          forall m | 0 <= m < k + 1 ensures jobs[m].id != id {
            if m > 0 { assert jobs[m] == jobs[1..][m - 1]; }
          }
        }
        r
      else r
  }

  /** `openManageModal(jobId)`: an empty form for a falsy id, the stored
      job's fields for a known id (skills joined by ", "), and no form for an
      unknown id. */
  function EditForm(jobs: seq<Job>, id: int): (r: Option<JobForm>)
    ensures id == 0 ==> r == Some(JobForm(0, [], [], [], [], [], [], [], [], []))
    ensures id != 0 ==> (r.None? <==> id !in IdsOf(jobs))
    ensures id != 0 && r.Some? ==> r.value.id == id
  {
    if id == 0 then Some(JobForm(0, [], [], [], [], [], [], [], [], []))
    else match FindJob(jobs, id)
      case None => None
      case Some(job) =>
        Some(JobForm(job.id, job.company, job.position, job.logo, job.contract, job.location,
                     job.role, job.level, Join(", ", job.skills), job.description))
  }

  /** Opening a stored, normalised job for editing and saving the form
      unchanged gives back the same job, apart from the date and the two
      flags that saving resets. */
  lemma EditRoundTrip(jobs: seq<Job>, job: Job, today: string)
    requires UniqueIds(jobs) && job in jobs && job.id != 0 && Normalised(job)
    ensures EditForm(jobs, job.id).Some?
    ensures JobFromForm(EditForm(jobs, job.id).value, job.id, today)
            == job.(postedAt := today, featured := false, isNew := false)
  {
    var found := FindJob(jobs, job.id);
    assert job.id in IdsOf(jobs);
    var i :| 0 <= i < |jobs| && jobs[i] == job;
    var k :| 0 <= k < |jobs| && jobs[k] == found.value;
    assert found.value == job;
    ParseJoinedSkills(job.skills);
  }

  /** The update branch: `allJobs.map(j => j.id === jobId ? {...j, ...newJob} : j)`.
      The new record carries every key, so a matching job is replaced by it. */
  function Updated(jobs: seq<Job>, id: int, job: Job): (r: seq<Job>)
    ensures |r| == |jobs|
    ensures forall k :: 0 <= k < |jobs| ==> r[k] == if jobs[k].id == id then job else jobs[k]
  {
    seq(|jobs|, k requires 0 <= k < |jobs| => if jobs[k].id == id then job else jobs[k])
  }

  /** An update never inserts: with no job of that id the list is unchanged;
      otherwise, ids being unique, exactly the job at that id's position is
      replaced and every other job stays in place. */
  lemma UpdateReplacesOne(jobs: seq<Job>, id: int, job: Job)
    requires UniqueIds(jobs)
    ensures id !in IdsOf(jobs) ==> Updated(jobs, id, job) == jobs
    ensures forall k :: 0 <= k < |jobs| && jobs[k].id == id ==> Updated(jobs, id, job) == jobs[k := job]
  {
    if id !in IdsOf(jobs) {
      forall k | 0 <= k < |jobs| ensures jobs[k].id != id {
        assert jobs[k] in jobs;
      }
    }
  }

  /** An update that keeps the id keeps the set of ids and their uniqueness. */
  lemma UpdateKeepsIds(jobs: seq<Job>, id: int, job: Job)
    requires job.id == id
    ensures IdsOf(Updated(jobs, id, job)) == IdsOf(jobs)
    ensures UniqueIds(jobs) ==> UniqueIds(Updated(jobs, id, job))
  {
    var r := Updated(jobs, id, job);
    forall x | x in IdsOf(r) ensures x in IdsOf(jobs) {
      var j :| j in r && j.id == x;
      var k :| 0 <= k < |r| && r[k] == j;
      assert jobs[k] in jobs;
    }
    forall x | x in IdsOf(jobs) ensures x in IdsOf(r) {
      var j :| j in jobs && j.id == x;
      var k :| 0 <= k < |jobs| && jobs[k] == j;
      assert r[k] in r;
    }
  }

  /** The add branch: appending a job with the next id keeps ids unique and
      adds exactly that id. */
  lemma AddKeepsUnique(jobs: seq<Job>, job: Job)
    requires job.id == NextId(jobs)
    ensures job.id !in IdsOf(jobs)
    ensures IdsOf(jobs + [job]) == IdsOf(jobs) + {job.id}
    ensures UniqueIds(jobs) ==> UniqueIds(jobs + [job])
  {
    var r := jobs + [job];
    forall x | x in IdsOf(r) ensures x in IdsOf(jobs) + {job.id} {
      var j :| j in r && j.id == x;
    }
    forall k | 0 <= k < |jobs| ensures jobs[k].id != job.id {
      assert jobs[k] in jobs;
    }
  }

  function IdIsNot(id: int): Job -> bool
  {
    (job: Job) => job.id != id
  }

  /** The delete branch of `handleManageListClick`:
      `allJobs.filter(j => j.id !== jobId)`. */
  function Deleted(jobs: seq<Job>, id: int): (r: seq<Job>)
    ensures forall job :: job in r <==> job in jobs && job.id != id
    ensures IsSubsequence(r, jobs)
    ensures forall job :: multiset(r)[job] == if job.id != id then multiset(jobs)[job] else 0
    ensures IdsOf(r) == IdsOf(jobs) - {id}
    ensures UniqueIds(jobs) ==> UniqueIds(r)
  {
    var r := Filter(jobs, IdIsNot(id));
    FilterIsSubsequence(jobs, IdIsNot(id));
    FilterCount(jobs, IdIsNot(id));
    DeleteKeepsUnique(jobs, id);
    forall x | x in IdsOf(jobs) - {id} ensures x in IdsOf(r) {
      var j :| j in jobs && j.id == x;
    }
    r
  }

  lemma {:induction false} DeleteKeepsUnique(jobs: seq<Job>, id: int)
    ensures UniqueIds(jobs) ==> UniqueIds(Filter(jobs, IdIsNot(id)))
  {
    if jobs != [] && UniqueIds(jobs) {
      var rest := Filter(jobs[1..], IdIsNot(id));
      assert UniqueIds(jobs[1..]) by {
        forall i, k | 0 <= i < k < |jobs[1..]| ensures jobs[1..][i].id != jobs[1..][k].id {
          assert jobs[1..][i] == jobs[i + 1] && jobs[1..][k] == jobs[k + 1];
        }
      }
      DeleteKeepsUnique(jobs[1..], id);
      if jobs[0].id != id {
        var r := [jobs[0]] + rest;
        forall i, k | 0 <= i < k < |r| ensures r[i].id != r[k].id {
          if i == 0 {
            assert r[k] in rest;
            var m :| 0 <= m < |jobs[1..]| && jobs[1..][m] == r[k];
            assert jobs[m + 1] == r[k];
          } else {
            assert r[i] == rest[i - 1] && r[k] == rest[k - 1];
          }
        }
      }
    }
  }

  // ---------------------------------------------------------------------
  // Validation
  // ---------------------------------------------------------------------

  datatype FieldError = CompanyRequired | PositionRequired | LogoNotUrl | NameRequired

  /** The job form passes validation: company and position are not blank and
      a non-blank logo parses as a URL (`isUrl` stands for `new URL`
      not throwing). */
  predicate JobFormValid(form: JobForm, isUrl: string -> bool)
  {
    !IsBlank(form.company) && !IsBlank(form.position)
    && (IsBlank(form.logo) || isUrl(Trim(form.logo)))
  }

  /** `validateJobForm`: one error per failing field, in field order. */
  method ValidateJobForm(form: JobForm, isUrl: string -> bool) returns (errors: seq<FieldError>)
    ensures CompanyRequired in errors <==> IsBlank(form.company)
    ensures PositionRequired in errors <==> IsBlank(form.position)
    ensures LogoNotUrl in errors <==> !IsBlank(form.logo) && !isUrl(Trim(form.logo))
    ensures NameRequired !in errors && NoDup(errors)
    ensures errors == [] <==> JobFormValid(form, isUrl)
  {
    var company := Trim(form.company) == [];
    assert company == IsBlank(form.company);
    var position := Trim(form.position) == [];
    assert position == IsBlank(form.position);
    var logo := Trim(form.logo);
    var badLogo := logo != [] && !isUrl(logo);
    assert badLogo == (!IsBlank(form.logo) && !isUrl(Trim(form.logo)));
    errors := [];
    if company {
      errors := errors + [CompanyRequired];
    }
    if position {
      errors := errors + [PositionRequired];
    }
    if badLogo {
      errors := errors + [LogoNotUrl];
    }
    ErrorList(company, position, badLogo, errors);
  }

  lemma ErrorList(company: bool, position: bool, badLogo: bool, errors: seq<FieldError>)
    requires errors == (if company then [CompanyRequired] else [])
                       + (if position then [PositionRequired] else [])
                       + (if badLogo then [LogoNotUrl] else [])
    ensures CompanyRequired in errors <==> company
    ensures PositionRequired in errors <==> position
    ensures LogoNotUrl in errors <==> badLogo
    ensures NameRequired !in errors && NoDup(errors)
    ensures errors == [] <==> !company && !position && !badLogo
  {
  }

  /** `validateProfileForm`: the name must not be blank. */
  method ValidateProfileForm(name: string) returns (errors: seq<FieldError>)
    ensures errors == [] <==> !IsBlank(name)
    ensures forall e :: e in errors ==> e == NameRequired
    ensures |errors| <= 1
  {
    errors := [];
    if Trim(name) == [] {
      errors := errors + [NameRequired];
    }
  }

  // ---------------------------------------------------------------------
  // Status line
  // ---------------------------------------------------------------------

  /** What the status line reports. */
  datatype Stats = Available(total: nat) | Matching(matched: nat, total: nat)

  /** `renderStats`: "M of N jobs match your filters" when a manual filter or
      a profile skill is active, otherwise "N jobs available". Reading the
      line back gives both counts in the first case and the total in the
      second. */
  function StatusText(matched: nat, total: nat, filtersActive: bool): (text: string)
    ensures ParseStatus(text) == Some(if filtersActive then Matching(matched, total) else Available(total))
  {
    if filtersActive then
      ParseMatchingLine(matched, total);
      Decimal(matched) + " of " + Decimal(total) + " jobs match your filters"
    else
      ParseAvailableLine(total);
      Decimal(total) + " jobs available"
  }

  /** Reads a status line back into what it reports. */
  function ParseStatus(text: string): Option<Stats>
  {
    var k := DigitRun(text);
    if k == 0 then None else ParseAfterCount(DecimalValue(text[..k]), text[k..])
  }

  /** Reads what follows the first count of a status line. */
  function ParseAfterCount(first: nat, rest: string): Option<Stats>
  {
    if StartsWith(rest, " of ") then
      var tail := rest[4..];
      var k := DigitRun(tail);
      if k > 0 && tail[k..] == " jobs match your filters"
      then Some(Matching(first, DecimalValue(tail[..k])))
      else None
    else if rest == " jobs available" then Some(Available(first))
    else None
  }

  lemma ParseAvailableLine(total: nat)
    ensures ParseStatus(Decimal(total) + " jobs available") == Some(Available(total))
  {
    var dt := Decimal(total);
    var suffix := " jobs available";
    var text := dt + suffix;
    DecimalRoundTrip(total);
    DigitRunOfDecimal(dt, suffix);
    assert text[..|dt|] == dt;
    assert text[|dt|..] == suffix;
    assert !StartsWith(suffix, " of ") by {
      assert suffix[1] == 'j';
    }
  }

  lemma ParseMatchingLine(matched: nat, total: nat)
    ensures ParseStatus(Decimal(matched) + " of " + Decimal(total) + " jobs match your filters")
            == Some(Matching(matched, total))
  {
    DecimalRoundTrip(matched);
    DecimalRoundTrip(total);
    ParseMatchingDigits(Decimal(matched), Decimal(total));
  }

  lemma ParseMatchingDigits(d1: string, d2: string)
    requires d1 != [] && forall i :: 0 <= i < |d1| ==> IsDigit(d1[i])
    requires d2 != [] && forall i :: 0 <= i < |d2| ==> IsDigit(d2[i])
    ensures ParseStatus(d1 + " of " + d2 + " jobs match your filters")
            == Some(Matching(DecimalValue(d1), DecimalValue(d2)))
  {
    var rest := " of " + d2 + " jobs match your filters";
    assert d1 + " of " + d2 + " jobs match your filters" == d1 + rest;
    ReadCount(d1, rest);
    ParseSecondCount(DecimalValue(d1), d2);
  }

  lemma ParseSecondCount(first: nat, d2: string)
    requires d2 != [] && forall i :: 0 <= i < |d2| ==> IsDigit(d2[i])
    ensures ParseAfterCount(first, " of " + d2 + " jobs match your filters")
            == Some(Matching(first, DecimalValue(d2)))
  {
    var suffix := " jobs match your filters";
    var tail := d2 + suffix;
    var rest := " of " + tail;
    assert " of " + d2 + suffix == rest;
    assert StartsWith(rest, " of ") && rest[4..] == tail by {
      assert rest[..4] == " of ";
    }
    assert DigitRun(tail) == |d2| && tail[..|d2|] == d2 && tail[|d2|..] == suffix by {
      ReadCount(d2, suffix);
    }
  }

  /** A count followed by a non-digit is read back as that count. */
  lemma ReadCount(d: string, t: string)
    requires forall i :: 0 <= i < |d| ==> IsDigit(d[i])
    requires t == [] || !IsDigit(t[0])
    ensures DigitRun(d + t) == |d| && (d + t)[..|d|] == d && (d + t)[|d|..] == t
  {
    DigitRunOfDecimal(d, t);
  }
}
