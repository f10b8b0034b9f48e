/** The profile routes of routes/api/profile.js over an in-memory profiles
    collection: projecting a request body onto a partial profile, the upsert
    (merge into the caller's profile, or create one), the public reads, the
    experience and education lists, and the delete that cascades to the user. */
module Profiles {
  import opened Js
  import opened Lists
  import opened ProfileModel
  import opened Users

  /** A create-or-update request body; any field may be missing. */
  datatype ProfileBody = ProfileBody(handle: Option<string>, company: Option<string>, website: Option<string>,
                                     location: Option<string>, bio: Option<string>, status: Option<string>,
                                     githubusername: Option<string>, skills: Option<string>,
                                     youtube: Option<string>, twitter: Option<string>, facebook: Option<string>,
                                     linkedin: Option<string>, instagram: Option<string>)

  function BodyField(b: ProfileBody, k: Key): Option<string>
  {
    match k
    case Handle => b.handle
    case Company => b.company
    case Website => b.website
    case Location => b.location
    case Bio => b.bio
    case Status => b.status
    case GitHubUsername => b.githubusername
  }

  function BodyLink(b: ProfileBody, l: SocialLink): Option<string>
  {
    match l
    case YouTube => b.youtube
    case Twitter => b.twitter
    case Facebook => b.facebook
    case LinkedIn => b.linkedin
    case Instagram => b.instagram
  }

  /** `if (v) target = v`: the value copied when it is truthy, else nothing. */
  function IfTruthy(v: Option<string>): Option<string>
  {
    if Truthy(v) then v else None
  }

  /** `skills.split(",")`: the pieces between commas, untrimmed and with
      empty pieces kept, which joined back give the original list. */
  function SplitSkills(skills: string): (r: seq<string>)
    ensures r == Split(skills, ',')
    ensures Join(r, ',') == skills
    ensures |r| == Count(skills, ',') + 1
    ensures forall i :: 0 <= i < |r| ==> ',' !in r[i]
  {
    JoinSplit(skills, ',');
    SplitCount(skills, ',');
    SplitPiecesFree(skills, ',');
    Split(skills, ',')
  }

  /** The partial profile a request body projects onto: the caller as `user`,
      each scalar path only when its body value is truthy, skills only when
      given (split on commas, untrimmed), and a social record rebuilt from
      the truthy links alone. */
  function Projection(caller: UserId, b: ProfileBody): (f: ProfileFields)
    ensures f.user == caller
    ensures forall k :: Field(f, k) == IfTruthy(BodyField(b, k))
    ensures forall k :: Field(f, k).Some? ==> Field(f, k).value != ""
    ensures forall l :: Link(f.social, l) == IfTruthy(BodyLink(b, l))
    ensures f.skills.Some? <==> b.skills.Some?
    ensures f.skills.Some? ==>
      && Join(f.skills.value, ',') == b.skills.value
      && |f.skills.value| == Count(b.skills.value, ',') + 1
      && forall i :: 0 <= i < |f.skills.value| ==> ',' !in f.skills.value[i]
  {
    ProfileFields(caller, IfTruthy(b.handle), IfTruthy(b.company), IfTruthy(b.website), IfTruthy(b.location),
                  IfTruthy(b.bio), IfTruthy(b.status), IfTruthy(b.githubusername),
                  if b.skills.Some? then Some(SplitSkills(b.skills.value)) else None,
                  Social(IfTruthy(b.youtube), IfTruthy(b.twitter), IfTruthy(b.facebook),
                         IfTruthy(b.linkedin), IfTruthy(b.instagram)))
  }

  /** The skills of a projection come back from `split` the way the caller
      lists them: "html,css,js" gives ["html", "css", "js"]. */
  lemma SkillsExample()
    ensures SplitSkills("html,css,js") == ["html", "css", "js"]
  {
    var pieces: seq<string> := ["html", "css", "js"];
    assert Join(pieces, ',') == "html,css,js" by {
      assert Join(pieces[2..], ',') == "js";
      assert Join(pieces[1..], ',') == "css" + [','] + "js";
    }
    SplitJoin(pieces, ',');
  }

  /** `if (v) fields.path = v` on a path not yet set: the path afterwards. */
  method CopyIfTruthy(v: Option<string>) returns (r: Option<string>)
    ensures Truthy(v) ==> r == v
    ensures !Truthy(v) ==> r.None?
  {
    r := None;
    if Truthy(v) {
      r := v;
    }
  }

  /** The handler's field-by-field construction of `profileFields`. */
  method BuildProfileFields(caller: UserId, body: ProfileBody) returns (f: ProfileFields)
    ensures f == Projection(caller, body)
  {
    var handle := CopyIfTruthy(body.handle);
    var company := CopyIfTruthy(body.company);
    var website := CopyIfTruthy(body.website);
    var location := CopyIfTruthy(body.location);
    var bio := CopyIfTruthy(body.bio);
    var status := CopyIfTruthy(body.status);
    var githubusername := CopyIfTruthy(body.githubusername);
    var skills: Option<seq<string>> := None;
    if body.skills.Some? {
      skills := Some(SplitSkills(body.skills.value));
    }
    var youtube := CopyIfTruthy(body.youtube);
    var twitter := CopyIfTruthy(body.twitter);
    var facebook := CopyIfTruthy(body.facebook);
    var linkedin := CopyIfTruthy(body.linkedin);
    var instagram := CopyIfTruthy(body.instagram);
    f := ProfileFields(caller, handle, company, website, location, bio, status, githubusername, skills,
                       Social(youtube, twitter, facebook, linkedin, instagram));
  }

  /** The value a `$set` leaves at a path: the new one when it sets the path. */
  function Pick(update: Option<string>, stored: Option<string>): (r: Option<string>)
  {
    if update.Some? then update else stored
  }

  /** `$set: profileFields` on a stored profile: a path the fields set takes
      the new value, every other path keeps its stored value; `social` is
      replaced as a whole; the entry lists and the date are untouched. */
  function Merge(p: Profile, f: ProfileFields): (r: Profile)
    ensures r.user == f.user
    ensures forall k :: Stored(r, k) == if Field(f, k).Some? then Field(f, k) else Stored(p, k)
    ensures r.skills == if f.skills.Some? then f.skills.value else p.skills
    ensures r.social == f.social
    ensures r.experience == p.experience && r.education == p.education && r.date == p.date
  {
    Profile(f.user,
            if f.handle.Some? then f.handle.value else p.handle,
            Pick(f.company, p.company),
            Pick(f.website, p.website),
            Pick(f.location, p.location),
            Pick(f.status, p.status),
            if f.skills.Some? then f.skills.value else p.skills,
            Pick(f.bio, p.bio),
            Pick(f.githubusername, p.githubusername),
            p.experience, p.education, f.social, p.date)
  }

  /** An update leaves the social links the request did not name empty, even
      where the stored profile had them. */
  lemma UpdateDropsUnnamedLinks(caller: UserId, p: Profile, b: ProfileBody, l: SocialLink)
    requires !Truthy(BodyLink(b, l))
    ensures Link(Merge(p, Projection(caller, b)).social, l) == None
  {
  }

  function ProfileHandle(p: Profile): string { p.handle }

  /** `Profile.findOne({ handle })` finds a profile; an unset handle finds none. */
  predicate HandleInUse(profiles: seq<Profile>, handle: Option<string>)
  {
    handle.Some? && handle.value in Map(profiles, ProfileHandle)
  }

  /** What a profile route answers. */
  datatype Response =
    | Invalid
    | NoProfile
    | Saved(profile: Profile)
    | Created(profile: Profile)
    | HandleExists
    | SaveRefused
    | ExperienceNotFound
    | EducationNotFound
    | Deleted

  /** A store after a create request, and the answer. */
  datatype Step = Step(profiles: seq<Profile>, response: Response)

  /** The create branch as written: a taken handle is answered with an error,
      but the new profile is saved all the same, since nothing returns
      between the answer and the save. */
  function CreateAsWritten(profiles: seq<Profile>, f: ProfileFields, now: Date): (s: Step)
    ensures HandleInUse(profiles, f.handle) ==> s.response == HandleExists
    ensures var np := Instantiate(f, now);
      !HandleInUse(profiles, f.handle) ==> s.response == if np.Some? then Created(np.value) else SaveRefused
    ensures var np := Instantiate(f, now);
      s.profiles == if np.Some? then profiles + [np.value] else profiles
  {
    var np := Instantiate(f, now);
    var stored := if np.Some? then profiles + [np.value] else profiles;
    Step(stored, if HandleInUse(profiles, f.handle) then HandleExists
                 else if np.Some? then Created(np.value) else SaveRefused)
  }

  /** The create branch as evidently intended: a taken handle stops the save,
      and a free handle is served exactly as the code as written serves it. */
  function CreateChecked(profiles: seq<Profile>, f: ProfileFields, now: Date): (s: Step)
    ensures HandleInUse(profiles, f.handle) ==> s == Step(profiles, HandleExists)
    ensures !HandleInUse(profiles, f.handle) ==> s == CreateAsWritten(profiles, f, now)
  {
    if HandleInUse(profiles, f.handle) then Step(profiles, HandleExists)
    else
      var np := Instantiate(f, now);
      if np.Some? then Step(profiles + [np.value], Created(np.value)) else Step(profiles, SaveRefused)
  }

  /** As written, a second user who asks for a taken handle is told it is
      taken, and ends up with a profile under that handle anyway. */
  lemma CreateAsWrittenDuplicatesHandle(existing: Profile, caller: UserId, skills: seq<string>, now: Date)
    requires existing.handle != "" && existing.user != caller
    ensures var f := ProfileFields(caller, Some(existing.handle), None, None, None, None, None, None, Some(skills), NoSocial);
      var s := CreateAsWritten([existing], f, now);
      && s.response == HandleExists
      && |s.profiles| == 2
      && s.profiles[0].handle == s.profiles[1].handle
  {
    var f := ProfileFields(caller, Some(existing.handle), None, None, None, None, None, None, Some(skills), NoSocial);
    assert Map([existing], ProfileHandle)[0] == existing.handle;
  }

  /** With the check that stops the save, handles stay unique. */
  lemma CreateCheckedKeepsHandlesUnique(profiles: seq<Profile>, f: ProfileFields, now: Date)
    requires UniqueKeys(profiles, ProfileHandle)
    ensures UniqueKeys(CreateChecked(profiles, f, now).profiles, ProfileHandle)
  {
    var np := Instantiate(f, now);
    if !HandleInUse(profiles, f.handle) && np.Some? {
      AppendKeepsUnique(profiles, np.value, ProfileHandle);
    }
  }

  /** As written, removing an education entry whose id is present drops the
      LAST entry, whatever its id: the index is looked up from a route
      parameter the route does not have, so `indexOf` gives -1. */
  lemma RemoveEducationDropsLast(edus: seq<Education>, eduId: EntryId)
    requires eduId in Map(edus, EducationId)
    ensures Splice1(edus, IndexOfParam(Map(edus, EducationId), None)) == edus[..|edus| - 1]
  {
  }

  /** A two-entry list where removing the first entry's id drops the second. */
  lemma RemoveEducationWrongEntry(a: Education, b: Education)
    requires a.id != b.id
    ensures var edus := [a, b];
      var after := Splice1(edus, IndexOfParam(Map(edus, EducationId), None));
      && after == [a]
      && a.id in Map(after, EducationId)
      && b.id !in Map(after, EducationId)
  {
    var after := Splice1([a, b], -1);
    assert after == [a];
    assert Map(after, EducationId)[0] == a.id;
  }

  /** A string id as a JavaScript value, which is never undefined. */
  function Defined(id: EntryId): Option<EntryId> { Some(id) }

  /** `ids.indexOf(p)` where `p` is a JavaScript value that may be undefined:
      the search runs over the ids as values, with strict equality. */
  function IndexOfParam(ids: seq<EntryId>, p: Option<EntryId>): (r: int)
    ensures p.None? ==> r == -1
    ensures p.Some? ==> r == IndexOf(ids, p.value)
  {
    var values := Map(ids, Defined);
    assert None !in values by {
      assert forall i :: 0 <= i < |values| ==> values[i].Some?;
    }
    assert p.Some? ==> IndexOf(values, p) == IndexOf(ids, p.value) by {
      if p.Some? {
        IndexOfDefined(ids, p.value);
      }
    }
    IndexOf(values, p)
  }

  /** Searching the ids as values for a defined id finds what searching the ids finds. */
  lemma IndexOfDefined(ids: seq<EntryId>, id: EntryId)
    ensures IndexOf(Map(ids, Defined), Some(id)) == IndexOf(ids, id)
  {
    var values := Map(ids, Defined);
    assert forall i :: 0 <= i < |ids| ==> (values[i] == Some(id) <==> ids[i] == id);
    assert Some(id) in values <==> id in ids;
  }

  /** Adding an education entry and then removing it as written keeps the
      entry just added and drops what was the last entry. */
  lemma AddThenRemoveEducationAsWritten(e: Education, edus: seq<Education>)
    requires edus != []
    ensures var s := [e] + edus;
      Splice1(s, IndexOfParam(Map(s, EducationId), None)) == [e] + edus[..|edus| - 1]
  {
    var s := [e] + edus;
    SpliceMinusOne(s);
    assert s[..|s| - 1] == [e] + edus[..|edus| - 1];
  }

  /** Adding an experience entry and then removing it by its id gives back
      the earlier entries, in order. */
  lemma AddThenRemoveExperience(e: Experience, exps: seq<Experience>)
    ensures RemoveFirst([e] + exps, ExperienceId, e.id) == exps
  {
    assert ([e] + exps)[1..] == exps;
  }

  /** The education removal as evidently intended: exactly the entry with
      that id goes, the others stay in order, and a missing id changes nothing. */
  function EducationWithout(edus: seq<Education>, eduId: EntryId): (r: seq<Education>)
    requires UniqueKeys(edus, EducationId)
    ensures UniqueKeys(r, EducationId) && eduId !in Map(r, EducationId)
    ensures eduId !in Map(edus, EducationId) ==> r == edus
    ensures eduId in Map(edus, EducationId) ==>
      var k := IndexOf(Map(edus, EducationId), eduId);
      edus[k].id == eduId && r == edus[..k] + edus[k + 1..]
  {
    RemoveFirstAt(edus, EducationId, eduId);
    RemoveFirstUnique(edus, EducationId, eduId);
    RemoveFirst(edus, EducationId, eduId)
  }

  /** The display fields a profile read joins from its user. */
  datatype Owner = Owner(name: string, avatar: string)

  /** A profile with its user's name and avatar, when that user exists. */
  datatype ProfileView = ProfileView(profile: Profile, owner: Option<Owner>)

  /** `populate("user", ["name", "avatar"])`. */
  function Populate(p: Profile, users: seq<Users.User>): (v: ProfileView)
    ensures v.profile == p
    ensures v.owner.None? <==> p.user !in Map(users, Users.UserIdOf)
    ensures v.owner.Some? ==> exists u :: u in users && u.id == p.user && v.owner.value == Owner(u.name, u.avatar)
  {
    var i := IndexOf(Map(users, Users.UserIdOf), p.user);
    if i < 0 then ProfileView(p, None)
    else
      assert users[i].id == p.user;
      ProfileView(p, Some(Owner(users[i].name, users[i].avatar)))
  }

  /** A stored profile satisfies the schema and its entry ids are distinct. */
  ghost predicate WellFormed(p: Profile)
  {
    ValidProfile(p) && UniqueKeys(p.experience, ExperienceId) && UniqueKeys(p.education, EducationId)
  }

  /** The profiles collection. */
  class ProfileStore {
    var profiles: seq<Profile>

    /** One profile per user, each well formed. Handles are not kept unique. */
    ghost predicate Valid()
      reads this
    {
      UniqueKeys(profiles, ProfileUser) && forall i :: 0 <= i < |profiles| ==> WellFormed(profiles[i])
    }

    constructor ()
      ensures Valid() && profiles == []
    {
      profiles := [];
    }

    /** `Profile.findOne({ user })`: the position of that user's profile, or -1. */
    function IndexOfUser(user: UserId): (r: int)
      reads this
      ensures -1 <= r < |profiles|
      ensures r == -1 <==> user !in Map(profiles, ProfileUser)
      ensures 0 <= r ==> profiles[r].user == user
    {
      IndexOf(Map(profiles, ProfileUser), user)
    }

    /** GET / for the caller, and GET /user/:user_id for any user: that user's
        profile joined with the user's name and avatar, or none. */
    method FindByUser(user: UserId, users: seq<Users.User>) returns (r: Option<ProfileView>)
      ensures r.None? <==> user !in Map(profiles, ProfileUser)
      ensures r.Some? ==> r.value.profile in profiles && r.value.profile.user == user
      ensures r.Some? ==> r.value == Populate(r.value.profile, users)
    {
      var i := IndexOfUser(user);
      if i < 0 {
        return None;
      }
      r := Some(Populate(profiles[i], users));
    }

    /** GET /handle/:handle: the first profile with that handle, joined, or none. */
    method FindByHandle(handle: string, users: seq<Users.User>) returns (r: Option<ProfileView>)
      ensures r.None? <==> handle !in Map(profiles, ProfileHandle)
      ensures r.Some? ==> r.value.profile in profiles && r.value.profile.handle == handle
      ensures r.Some? ==> r.value == Populate(r.value.profile, users)
    {
      var i := IndexOf(Map(profiles, ProfileHandle), handle);
      if i < 0 {
        return None;
      }
      assert profiles[i].handle == Map(profiles, ProfileHandle)[i];
      r := Some(Populate(profiles[i], users));
    }

    /** GET /all: every profile joined, in collection order, or none at all
        when the collection is empty. */
    method ListAll(users: seq<Users.User>) returns (r: Option<seq<ProfileView>>)
      ensures r.None? <==> profiles == []
      ensures r.Some? ==> |r.value| == |profiles| && forall i :: 0 <= i < |profiles| ==> r.value[i] == Populate(profiles[i], users)
    {
      if |profiles| == 0 {
        return None;
      }
      var ps := profiles;
      r := Some(seq(|ps|, i requires 0 <= i < |ps| => Populate(ps[i], users)));
    }

    /** POST /: merge the projection into the caller's profile, or create one,
        answering a taken handle with an error but saving regardless. */
    method Upsert(caller: UserId, body: ProfileBody, bodyValid: bool, now: Date) returns (r: Response)
      requires Valid()
      modifies this
      ensures Valid()
      ensures !bodyValid ==> r == Invalid && profiles == old(profiles)
      ensures bodyValid && old(IndexOfUser(caller)) >= 0 ==>
        var i := old(IndexOfUser(caller));
        && profiles == old(profiles)[i := Merge(old(profiles)[i], Projection(caller, body))]
        && r == Saved(profiles[i])
      ensures bodyValid && old(IndexOfUser(caller)) < 0 ==>
        CreateAsWritten(old(profiles), Projection(caller, body), now) == Step(profiles, r)
    {
      if !bodyValid {
        return Invalid;
      }
      var fields := BuildProfileFields(caller, body);
      var i := IndexOfUser(caller);
      if i >= 0 {
        var updated := Merge(profiles[i], fields);
        ReplaceKeepsUnique(profiles, i, updated, ProfileUser);
        profiles := profiles[i := updated];
        return Saved(updated);
      }
      var taken := HandleInUse(profiles, fields.handle);
      if taken {
        r := HandleExists;
      }
      var created := Instantiate(fields, now);
      if created.Some? {
        AppendKeepsUnique(profiles, created.value, ProfileUser);
        profiles := profiles + [created.value];
        if !taken {
          r := Created(created.value);
        }
      } else if !taken {
        r := SaveRefused;
      }
    }

    /** Replaces the profile at `i` by a well-formed one of the same user. */
    method Put(i: nat, p: Profile)
      requires Valid()
      requires i < |profiles| && p.user == profiles[i].user && WellFormed(p)
      modifies this
      ensures Valid()
      ensures profiles == old(profiles)[i := p]
    {
      ReplaceKeepsUnique(profiles, i, p, ProfileUser);
      profiles := profiles[i := p];
    }

    /** POST /experience: the new entry goes in front of the caller's list.
        `newId` is the fresh ObjectId of the sub-document. */
    method AddExperience(caller: UserId, input: ExperienceInput, inputValid: bool, newId: EntryId)
      returns (r: Response)
      requires Valid()
      requires forall i :: 0 <= i < |profiles| ==> newId !in Map(profiles[i].experience, ExperienceId)
      modifies this
      ensures Valid()
      ensures var i := old(IndexOfUser(caller));
        var e := NewExperience(newId, input);
        if !inputValid then r == Invalid && profiles == old(profiles)
        else if i < 0 then r == NoProfile && profiles == old(profiles)
        else if e.None? then r == SaveRefused && profiles == old(profiles)
        else
          && profiles == old(profiles)[i := old(profiles)[i].(experience := [e.value] + old(profiles)[i].experience)]
          && r == Saved(profiles[i])
    {
      if !inputValid {
        return Invalid;
      }
      var i := IndexOfUser(caller);
      if i < 0 {
        return NoProfile;
      }
      var profile := profiles[i];
      var newExp := NewExperience(newId, input);
      if newExp.None? {
        return SaveRefused;
      }
      PrependKeepsUnique(newExp.value, profile.experience, ExperienceId);
      profile := profile.(experience := [newExp.value] + profile.experience);
      assert forall t :: 1 <= t < |profile.experience| ==> profile.experience[t] == profiles[i].experience[t - 1];
      Put(i, profile);
      r := Saved(profile);
    }

    /** POST /education: the new entry goes in front of the caller's list. */
    method AddEducation(caller: UserId, input: EducationInput, inputValid: bool, newId: EntryId)
      returns (r: Response)
      requires Valid()
      requires forall i :: 0 <= i < |profiles| ==> newId !in Map(profiles[i].education, EducationId)
      modifies this
      ensures Valid()
      ensures var i := old(IndexOfUser(caller));
        var e := NewEducation(newId, input);
        if !inputValid then r == Invalid && profiles == old(profiles)
        else if i < 0 then r == NoProfile && profiles == old(profiles)
        else if e.None? then r == SaveRefused && profiles == old(profiles)
        else
          && profiles == old(profiles)[i := old(profiles)[i].(education := [e.value] + old(profiles)[i].education)]
          && r == Saved(profiles[i])
    {
      if !inputValid {
        return Invalid;
      }
      var i := IndexOfUser(caller);
      if i < 0 {
        return NoProfile;
      }
      var profile := profiles[i];
      var newEdu := NewEducation(newId, input);
      if newEdu.None? {
        return SaveRefused;
      }
      PrependKeepsUnique(newEdu.value, profile.education, EducationId);
      profile := profile.(education := [newEdu.value] + profile.education);
      assert forall t :: 1 <= t < |profile.education| ==> profile.education[t] == profiles[i].education[t - 1];
      Put(i, profile);
      r := Saved(profile);
    }

    /** DELETE /experience/:exp_id: "not found" leaves the list alone; otherwise
        exactly the entry with that id is spliced out. */
    method RemoveExperience(caller: UserId, expId: EntryId) returns (r: Response)
      requires Valid()
      modifies this
      ensures Valid()
      ensures var i := old(IndexOfUser(caller));
        if i < 0 then r == NoProfile && profiles == old(profiles)
        else if expId !in Map(old(profiles)[i].experience, ExperienceId) then
          r == ExperienceNotFound && profiles == old(profiles)
        else
          && profiles == old(profiles)[i := old(profiles)[i].(experience := RemoveFirst(old(profiles)[i].experience, ExperienceId, expId))]
          && expId !in Map(profiles[i].experience, ExperienceId)
          && r == Saved(profiles[i])
    {
      var i := IndexOfUser(caller);
      if i < 0 {
        return NoProfile;
      }
      var profile := profiles[i];
      var exps := profile.experience;
      var ids := Map(exps, ExperienceId);
      var found := false;
      var j := 0;
      while j < |exps|
        invariant 0 <= j <= |exps|
        invariant found <==> expId in ids[..j]
      {
        assert ids[..j + 1] == ids[..j] + [ids[j]];
        if exps[j].id == expId {
          found := true;
        }
        j := j + 1;
      }
      assert ids[..j] == ids;
      if !found {
        return ExperienceNotFound;
      }
      var removeIndex := IndexOf(ids, expId);
      SpliceIndexOfIsRemoveFirst(exps, ExperienceId, expId);
      RemoveFirstUnique(exps, ExperienceId, expId);
      RemoveFirstAt(exps, ExperienceId, expId);
      CutKeepsValidExperience(exps, removeIndex, exps[..removeIndex] + exps[removeIndex + 1..]);
      profile := profile.(experience := Splice1(exps, removeIndex));
      Put(i, profile);
      r := Saved(profile);
    }

    /** DELETE /education/:edu_id as written: "not found" leaves the list alone;
        otherwise the LAST entry is spliced out, whichever id it has. */
    method RemoveEducation(caller: UserId, eduId: EntryId) returns (r: Response)
      requires Valid()
      modifies this
      ensures Valid()
      ensures var i := old(IndexOfUser(caller));
        if i < 0 then r == NoProfile && profiles == old(profiles)
        else
          var edus := old(profiles)[i].education;
          if eduId !in Map(edus, EducationId) then r == EducationNotFound && profiles == old(profiles)
          else
            && profiles == old(profiles)[i := old(profiles)[i].(education := edus[..|edus| - 1])]
            && r == Saved(profiles[i])
    {
      var i := IndexOfUser(caller);
      if i < 0 {
        return NoProfile;
      }
      var profile := profiles[i];
      var edus := profile.education;
      var ids := Map(edus, EducationId);
      var found := false;
      var j := 0;
      while j < |edus|
        invariant 0 <= j <= |edus|
        invariant found <==> eduId in ids[..j]
      {
        assert ids[..j + 1] == ids[..j] + [ids[j]];
        if edus[j].id == eduId {
          found := true;
        }
        j := j + 1;
      }
      assert ids[..j] == ids;
      if !found {
        return EducationNotFound;
      }
      // The route declares `:edu_id`, so `req.params.exp_id` is undefined.
      var expIdParam: Option<EntryId> := None;
      var removeIndex := IndexOfParam(ids, expIdParam);
      RemoveEducationDropsLast(edus, eduId);
      CutKeepsUnique(edus, EducationId, |edus| - 1);
      CutKeepsValidEducation(edus, |edus| - 1, edus[..|edus| - 1] + edus[|edus|..]);
      assert edus[..|edus| - 1] == edus[..|edus| - 1] + edus[|edus|..];
      profile := profile.(education := Splice1(edus, removeIndex));
      Put(i, profile);
      r := Saved(profile);
    }

    /** DELETE /: removes the caller's profile, then the caller's user record,
        whether or not a profile existed. */
    method DeleteOwn(caller: UserId, users: Users.UserTable) returns (r: Response)
      requires Valid() && users.Valid()
      modifies this, users
      ensures Valid() && users.Valid()
      ensures profiles == RemoveFirst(old(profiles), ProfileUser, caller)
      ensures users.users == RemoveFirst(old(users.users), Users.UserIdOf, caller)
      ensures caller !in Map(profiles, ProfileUser) && caller !in Map(users.users, Users.UserIdOf)
      ensures r == Deleted
    {
      RemoveProfileKeepsValid(profiles, caller);
      profiles := RemoveFirst(profiles, ProfileUser, caller);
      users.DeleteById(caller);
      r := Deleted;
    }
  }

  /** Dropping one entry keeps the others satisfying the schema. */
  lemma CutKeepsValidExperience(s: seq<Experience>, k: nat, r: seq<Experience>)
    requires k < |s| && r == s[..k] + s[k + 1..]
    requires forall i :: 0 <= i < |s| ==> ValidExperience(s[i])
    ensures forall i :: 0 <= i < |r| ==> ValidExperience(r[i])
  {
    assert forall i :: 0 <= i < |r| ==> r[i] == s[if i < k then i else i + 1];
  }

  lemma CutKeepsValidEducation(s: seq<Education>, k: nat, r: seq<Education>)
    requires k < |s| && r == s[..k] + s[k + 1..]
    requires forall i :: 0 <= i < |s| ==> ValidEducation(s[i])
    ensures forall i :: 0 <= i < |r| ==> ValidEducation(r[i])
  {
    assert forall i :: 0 <= i < |r| ==> r[i] == s[if i < k then i else i + 1];
  }

  /** Removing a user's profile keeps one profile per user, each well formed. */
  lemma RemoveProfileKeepsValid(ps: seq<Profile>, user: UserId)
    requires UniqueKeys(ps, ProfileUser) && forall i :: 0 <= i < |ps| ==> WellFormed(ps[i])
    ensures var r := RemoveFirst(ps, ProfileUser, user);
      && UniqueKeys(r, ProfileUser) && user !in Map(r, ProfileUser)
      && forall i :: 0 <= i < |r| ==> WellFormed(r[i])
  {
    RemoveFirstUnique(ps, ProfileUser, user);
    RemoveFirstAt(ps, ProfileUser, user);
    var k := IndexOf(Map(ps, ProfileUser), user);
    var r := RemoveFirst(ps, ProfileUser, user);
    if k != -1 {
      forall j | 0 <= j < |r| ensures WellFormed(r[j]) {
        assert r[j] == ps[if j < k then j else j + 1];
      }
    }
  }
}
