/** The profile schema of models/Profile.js: the stored profile document, its
    experience and education sub-documents and social sub-record, which fields
    are required, which default, and what saving a new document accepts. */
module ProfileModel {
  import opened Js
  import opened Users

  /** The ObjectId of a sub-document, as its string form. */
  type EntryId = string
  /** A point in time; the model does no date arithmetic. */
  type Date = int

  /** The social sub-record: exactly five optional links. */
  datatype Social = Social(youtube: Option<string>, twitter: Option<string>, facebook: Option<string>,
                           linkedin: Option<string>, instagram: Option<string>)

  datatype SocialLink = YouTube | Twitter | Facebook | LinkedIn | Instagram

  function Link(s: Social, l: SocialLink): Option<string>
  {
    match l
    case YouTube => s.youtube
    case Twitter => s.twitter
    case Facebook => s.facebook
    case LinkedIn => s.linkedin
    case Instagram => s.instagram
  }

  const NoSocial := Social(None, None, None, None, None)

  /** An experience entry: title, company and start date are required. */
  datatype Experience = Experience(id: EntryId, title: string, company: string, location: Option<string>,
                                   from: Date, to: Option<Date>, current: bool, description: Option<string>)

  /** An education entry: school, degree, field of study and start date are required. */
  datatype Education = Education(id: EntryId, school: string, degree: string, fieldofstudy: string,
                                 from: Date, to: Option<Date>, current: bool, description: Option<string>)

  function ExperienceId(e: Experience): EntryId { e.id }
  function EducationId(e: Education): EntryId { e.id }

  /** A stored profile. `user` references one user; handle and skills are
      required; the entry lists are owned by the profile, newest first. */
  datatype Profile = Profile(user: UserId, handle: string, company: Option<string>, website: Option<string>,
                             location: Option<string>, status: Option<string>, skills: seq<string>,
                             bio: Option<string>, githubusername: Option<string>,
                             experience: seq<Experience>, education: seq<Education>,
                             social: Social, date: Date)

  function ProfileUser(p: Profile): UserId { p.user }

  /** The schema's `required` validator on a String path refuses a missing value
      and the empty string, which is JavaScript truthiness. */
  predicate Required(v: Option<string>) { Truthy(v) }

  /** A stored entry satisfies the schema. */
  predicate ValidExperience(e: Experience) { e.title != "" && e.company != "" }
  predicate ValidEducation(e: Education) { e.school != "" && e.degree != "" && e.fieldofstudy != "" }

  /** A stored profile satisfies the schema. */
  ghost predicate ValidProfile(p: Profile)
  {
    && p.handle != ""
    && (forall i :: 0 <= i < |p.experience| ==> ValidExperience(p.experience[i]))
    && (forall i :: 0 <= i < |p.education| ==> ValidEducation(p.education[i]))
  }

  /** The experience fields a request body supplies; any may be missing. */
  datatype ExperienceInput = ExperienceInput(title: Option<string>, company: Option<string>, location: Option<string>,
                                             from: Option<Date>, to: Option<Date>, current: Option<bool>,
                                             description: Option<string>)

  /** The education fields a request body supplies; any may be missing. */
  datatype EducationInput = EducationInput(school: Option<string>, degree: Option<string>, fieldofstudy: Option<string>,
                                           from: Option<Date>, to: Option<Date>, current: Option<bool>,
                                           description: Option<string>)

  /** The experience sub-document the schema builds from the input, or None
      when a required path is missing and saving the profile is refused.
      `current` defaults to false. */
  function NewExperience(id: EntryId, input: ExperienceInput): (r: Option<Experience>)
    ensures r.Some? <==> Required(input.title) && Required(input.company) && input.from.Some?
    ensures r.Some? ==> ValidExperience(r.value) && r.value.id == id
    ensures r.Some? ==>
      && r.value.title == input.title.value && r.value.company == input.company.value
      && r.value.from == input.from.value && r.value.location == input.location
      && r.value.to == input.to && r.value.description == input.description
    ensures r.Some? ==> (r.value.current <==> input.current == Some(true))
  {
    if Required(input.title) && Required(input.company) && input.from.Some? then
      Some(Experience(id, input.title.value, input.company.value, input.location, input.from.value,
                      input.to, if input.current.Some? then input.current.value else false, input.description))
    else None
  }

  /** The education sub-document the schema builds from the input, or None
      when a required path is missing. `current` defaults to false. */
  function NewEducation(id: EntryId, input: EducationInput): (r: Option<Education>)
    ensures r.Some? <==>
      Required(input.school) && Required(input.degree) && Required(input.fieldofstudy) && input.from.Some?
    ensures r.Some? ==> ValidEducation(r.value) && r.value.id == id
    ensures r.Some? ==>
      && r.value.school == input.school.value && r.value.degree == input.degree.value
      && r.value.fieldofstudy == input.fieldofstudy.value && r.value.from == input.from.value
      && r.value.to == input.to && r.value.description == input.description
    ensures r.Some? ==> (r.value.current <==> input.current == Some(true))
  {
    if Required(input.school) && Required(input.degree) && Required(input.fieldofstudy) && input.from.Some? then
      Some(Education(id, input.school.value, input.degree.value, input.fieldofstudy.value, input.from.value,
                     input.to, if input.current.Some? then input.current.value else false, input.description))
    else None
  }

  /** The scalar string paths of a profile that a request can set. */
  datatype Key = Handle | Company | Website | Location | Bio | Status | GitHubUsername

  /** The value a stored profile holds at a scalar path. */
  function Stored(p: Profile, k: Key): Option<string>
  {
    match k
    case Handle => Some(p.handle)
    case Company => p.company
    case Website => p.website
    case Location => p.location
    case Bio => p.bio
    case Status => p.status
    case GitHubUsername => p.githubusername
  }

  /** A partial profile document: the paths a request sets, `None` for a path
      it leaves unset. `user` and `social` are always set. */
  datatype ProfileFields = ProfileFields(user: UserId, handle: Option<string>, company: Option<string>,
                                         website: Option<string>, location: Option<string>, bio: Option<string>,
                                         status: Option<string>, githubusername: Option<string>,
                                         skills: Option<seq<string>>, social: Social)

  function Field(f: ProfileFields, k: Key): Option<string>
  {
    match k
    case Handle => f.handle
    case Company => f.company
    case Website => f.website
    case Location => f.location
    case Bio => f.bio
    case Status => f.status
    case GitHubUsername => f.githubusername
  }

  /** `new Profile(fields).save()`: the document saving a new profile stores,
      or None when the schema refuses it for a missing handle or skills.
      The entry lists start empty and `date` takes the current time. */
  function Instantiate(f: ProfileFields, now: Date): (r: Option<Profile>)
    ensures r.Some? <==> Required(f.handle) && f.skills.Some?
    ensures r.Some? ==> ValidProfile(r.value) && r.value.user == f.user && r.value.date == now
    ensures r.Some? ==> forall k :: Stored(r.value, k) == Field(f, k)
    ensures r.Some? ==> r.value.skills == f.skills.value && r.value.social == f.social
    ensures r.Some? ==> r.value.experience == [] && r.value.education == []
  {
    if Required(f.handle) && f.skills.Some? then
      Some(Profile(f.user, f.handle.value, f.company, f.website, f.location, f.status, f.skills.value,
                   f.bio, f.githubusername, [], [], f.social, now))
    else None
  }
}
