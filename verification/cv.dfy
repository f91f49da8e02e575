/** The fields of the résumé record (JSON Resume schema) that the renderer reads. */
module CVModel {

  /** `CVLocation`: the postal address of the applicant. */
  datatype Location = Location(address: string, postalCode: string, city: string)

  /** `CVBasics`: contact details, the summary and the photo file name. */
  datatype Basics = Basics(
    name: string,
    picture: string,
    email: string,
    phone: string,
    summary: string,
    location: Location)

  /** `CVWork`: one job. Dates are strings such as "2011-01-11", possibly empty. */
  datatype Work = Work(
    company: string,
    position: string,
    startDate: string,
    endDate: string,
    summary: string,
    highlights: seq<string>)

  /** `CVEducation`: one formal education entry. */
  datatype Education = Education(
    institution: string,
    area: string,
    studyType: string,
    startDate: string,
    endDate: string,
    courses: seq<string>)

  /** `CVSkill`: a skill and its mastery level. */
  datatype Skill = Skill(name: string, level: string)

  /** `CVInterest`: an interest. */
  datatype Interest = Interest(name: string)

  /** `CV`: each sequence is rendered in the order given. */
  datatype CV = CV(
    basics: Basics,
    work: seq<Work>,
    education: seq<Education>,
    interests: seq<Interest>,
    skills: seq<Skill>)
}
