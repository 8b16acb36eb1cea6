/** The widget's in-memory state and the event handlers that change it. */
module App {
  import opened Seqs
  import opened Strings
  import opened Listings

  /** `userProfile`: `{ name, position, skills }`. */
  datatype Profile = Profile(name: string, position: string, skills: seq<string>)

  /** The closure state of the page script (`allJobs`, `manualFilters`,
      `userProfile`, `favoriteJobIds`) together with the text of the search
      box, which `handleClearFilters` resets. */
  class JobApp {
    var allJobs: seq<Job>
    var manualFilters: seq<string>
    var profile: Profile
    var favoriteJobIds: seq<int>
    var searchText: string

    /** What the handlers keep true once it holds: job ids are unique, every
        favourite names a job, and the favourites, manual filters and skills
        are lists without repetitions. */
    ghost predicate Consistent()
      reads this
    {
      && UniqueIds(allJobs)
      && NoDup(favoriteJobIds)
      && (forall id :: id in favoriteJobIds ==> id in IdsOf(allJobs))
      && NoDup(manualFilters)
      && NoDup(profile.skills)
    }

    /** The state after `initializeApp` has loaded the saved profile, the
        saved favourites and the job list: no manual filter and an empty
        search box. */
    constructor (jobs: seq<Job>, savedProfile: Profile, savedFavorites: seq<int>)
      ensures allJobs == jobs && profile == savedProfile && favoriteJobIds == savedFavorites
      ensures manualFilters == [] && searchText == []
    {
      allJobs := jobs;
      manualFilters := [];
      profile := savedProfile;
      favoriteJobIds := savedFavorites;
      searchText := [];
    }

    /** `applyAllFilters`: the jobs to render and the status line. */
    method ApplyAllFilters() returns (visible: seq<Job>, status: string)
      ensures visible == VisibleJobs(allJobs, searchText, manualFilters, profile.skills)
      ensures status == StatusText(|visible|, |allJobs|, manualFilters != [] || profile.skills != [])
    {
      var term := SearchTerm(searchText);
      var filters := CombinedFilters(manualFilters, profile.skills);
      visible := FilterJobs(allJobs, term, filters);
      status := StatusText(|visible|, |allJobs|, manualFilters != [] || profile.skills != []);
    }

    /** The search box's `input` event: new text, nothing else changes. */
    method Search(text: string)
      modifies this
      ensures searchText == text
      ensures allJobs == old(allJobs) && manualFilters == old(manualFilters)
      ensures profile == old(profile) && favoriteJobIds == old(favoriteJobIds)
    {
      searchText := text;
    }

    /** `toggleFavorite`. */
    method ToggleFavorite(id: int)
      modifies this
      ensures favoriteJobIds == Toggled(old(favoriteJobIds), id)
      ensures allJobs == old(allJobs) && manualFilters == old(manualFilters)
      ensures profile == old(profile) && searchText == old(searchText)
      ensures old(Consistent()) && id in IdsOf(allJobs) ==> Consistent()
    {
      var idx := IndexOf(favoriteJobIds, id);
      if idx == -1 {
        favoriteJobIds := favoriteJobIds + [id];
      } else {
        favoriteJobIds := favoriteJobIds[..idx] + favoriteJobIds[idx + 1..];
      }
      if old(Consistent()) {
        ToggleFlips(old(favoriteJobIds), id);
      }
    }

    /** `handleSkillAdd` on Enter. */
    method AddSkill(input: string)
      modifies this
      ensures profile == old(profile).(skills := SkillAdded(old(profile.skills), input))
      ensures allJobs == old(allJobs) && manualFilters == old(manualFilters)
      ensures favoriteJobIds == old(favoriteJobIds) && searchText == old(searchText)
      ensures old(Consistent()) ==> Consistent()
    {
      var val := Trim(input);
      if val == [] {
        return;
      }
      if val !in profile.skills {
        profile := profile.(skills := profile.skills + [val]);
      }
    }

    /** `handleSkillRemove`: every occurrence of the clicked skill goes. */
    method RemoveSkill(skill: string)
      modifies this
      ensures profile == old(profile).(skills := Without(old(profile.skills), skill))
      ensures allJobs == old(allJobs) && manualFilters == old(manualFilters)
      ensures favoriteJobIds == old(favoriteJobIds) && searchText == old(searchText)
      ensures old(Consistent()) ==> Consistent()
    {
      profile := profile.(skills := Without(profile.skills, skill));
    }

    /** `handleProfileSave`: a valid form stores the trimmed name and
        position; an invalid one changes nothing. */
    method SaveProfile(name: string, position: string) returns (errors: seq<FieldError>)
      modifies this
      ensures errors == [] <==> !IsBlank(name)
      ensures errors == [] ==> profile == old(profile).(name := Trim(name), position := Trim(position))
      ensures errors != [] ==> profile == old(profile)
      ensures allJobs == old(allJobs) && manualFilters == old(manualFilters)
      ensures favoriteJobIds == old(favoriteJobIds) && searchText == old(searchText)
      ensures old(Consistent()) ==> Consistent()
    {
      errors := ValidateProfileForm(name);
      if errors != [] {
        return;
      }
      profile := profile.(name := Trim(name), position := Trim(position));
    }

    /** The tag branch of `handleJobListClick`. */
    method AddTagFilter(tag: string)
      modifies this
      ensures manualFilters == TagAdded(old(manualFilters), tag)
      ensures allJobs == old(allJobs) && profile == old(profile)
      ensures favoriteJobIds == old(favoriteJobIds) && searchText == old(searchText)
      ensures old(Consistent()) ==> Consistent()
    {
      if tag != [] {
        if tag !in manualFilters {
          manualFilters := manualFilters + [tag];
        }
      }
    }

    /** The remove button of `handleFilterBarClick`: only that tag goes. */
    method RemoveTagFilter(tag: string)
      modifies this
      ensures manualFilters == Without(old(manualFilters), tag)
      ensures allJobs == old(allJobs) && profile == old(profile)
      ensures favoriteJobIds == old(favoriteJobIds) && searchText == old(searchText)
      ensures old(Consistent()) ==> Consistent()
    {
      manualFilters := Without(manualFilters, tag);
    }

    /** `handleClearFilters`: no manual filter and an empty search box; the
        profile skills stay. */
    method ClearFilters()
      modifies this
      ensures manualFilters == [] && searchText == []
      ensures allJobs == old(allJobs) && profile == old(profile)
      ensures favoriteJobIds == old(favoriteJobIds)
      ensures old(Consistent()) ==> Consistent()
    {
      manualFilters := [];
      searchText := [];
    }

    /** `handleManageFormSubmit`: an invalid form changes nothing; a form
        without an id appends a job with the next free id; a form with an id
        replaces the jobs carrying that id and never inserts. */
    method SubmitJobForm(form: JobForm, isUrl: string -> bool, today: string) returns (errors: seq<FieldError>)
      modifies this
      ensures errors == [] <==> JobFormValid(form, isUrl)
      ensures errors != [] ==> allJobs == old(allJobs)
      ensures errors == [] && form.id == 0 ==>
                allJobs == old(allJobs) + [JobFromForm(form, NextId(old(allJobs)), today)]
      ensures errors == [] && form.id != 0 ==>
                allJobs == Updated(old(allJobs), form.id, JobFromForm(form, form.id, today))
      ensures manualFilters == old(manualFilters) && profile == old(profile)
      ensures favoriteJobIds == old(favoriteJobIds) && searchText == old(searchText)
      ensures old(Consistent()) ==> Consistent()
    {
      errors := ValidateJobForm(form, isUrl);
      if errors != [] {
        return;
      }
      var id := if form.id != 0 then form.id else NextId(allJobs);
      var job := JobFromForm(form, id, today);
      if form.id != 0 {
        UpdateKeepsIds(allJobs, id, job);
        allJobs := Updated(allJobs, id, job);
      } else {
        AddKeepsUnique(allJobs, job);
        allJobs := allJobs + [job];
      }
    }

    /** The delete button of `handleManageListClick`: once confirmed, the
        job leaves the list and its id leaves the favourites, everything else
        staying in order. */
    method DeleteJob(id: int, confirmed: bool)
      modifies this
      ensures !confirmed ==> allJobs == old(allJobs) && favoriteJobIds == old(favoriteJobIds)
      ensures confirmed ==> allJobs == Deleted(old(allJobs), id)
      ensures confirmed ==> favoriteJobIds == Without(old(favoriteJobIds), id)
      ensures confirmed ==> id !in IdsOf(allJobs) && id !in favoriteJobIds
      ensures manualFilters == old(manualFilters) && profile == old(profile)
      ensures searchText == old(searchText)
      ensures old(Consistent()) ==> Consistent()
    {
      if !confirmed {
        return;
      }
      allJobs := Deleted(allJobs, id);
      favoriteJobIds := Without(favoriteJobIds, id);
    }
  }
}
