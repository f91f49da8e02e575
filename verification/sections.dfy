/** The section writers of sections.go, each producing the draw operations of one section. */
module Sections {
  import opened Results
  import opened CVModel
  import opened Common
  import opened Interests

  /** `pdf.Write(lineH, "\n")`: one blank line of spacing. */
  const Gap: Block := Text(1.0, "\n")

  /** The label column's share of a skill row, and of an education or work row. */
  const SkillRatio: real := 0.5
  const HistoryRatio: real := 0.14

  /** `writeRightOrSkip`: a contact line only when its text is present. */
  function RightOrSkip(text: string, link: string): (blocks: seq<Block>)
    ensures blocks == [] <==> text == ""
    ensures text != "" ==> blocks == [Right(text, link)]
  {
    if text != "" then [Right(text, link)] else []
  }

  /** `writeHeader`: the right-aligned contact lines, or the "Missing city" error when an address
      is given without a city. A missing postal code is only a warning. */
  function Header(basics: Basics): (r: Result<seq<Block>>)
    ensures r.Failure? <==> basics.location.address != "" && basics.location.city == ""
    ensures r.Failure? ==> r.error == "Missing city"
    ensures r.Success? ==> forall i :: 0 <= i < |r.value| ==> r.value[i].Right?
  {
    var location := basics.location;
    if location.address != "" && location.city == "" then Failure("Missing city")
    else
      var place :=
        if location.address != "" then
          [Right(location.address, ""), Right(location.city + " " + location.postalCode, "")]
        else [];
      Success(place + RightOrSkip(basics.email, "mailto:" + basics.email) + RightOrSkip(basics.phone, ""))
  }

  /** The contact lines of a header that does not fail, in their fixed order: the address and
      "City PostalCode" (only with an address), the e-mail as a "mailto:" link, the phone. An absent
      e-mail or phone is skipped; an absent postal code leaves a trailing space. */
  lemma HeaderContacts(basics: Basics)
    requires Header(basics).Success?
    ensures var lines := Header(basics).value;
            var k := if basics.location.address != "" then 2 else 0;
            && |lines| == k + (if basics.email != "" then 1 else 0) + (if basics.phone != "" then 1 else 0)
            && (basics.location.address != "" ==>
                  && lines[0] == Right(basics.location.address, "")
                  && lines[1] == Right(basics.location.city + " " + basics.location.postalCode, ""))
            && (basics.email != "" ==> lines[k] == Right(basics.email, "mailto:" + basics.email))
            && (basics.phone != "" ==> lines[|lines| - 1] == Right(basics.phone, ""))
  {
  }

  /** What `writeSummary` draws and the height it returns for the photo. */
  datatype Summarised = Summarised(blocks: seq<Block>, imageY: real)

  /** The height `writeSummary` returns when there is no summary. */
  const SkippedImageY: real := -100.0

  /** `writeSummary`: the "Objective" heading and the summary text, or nothing at all. The height
      returned is `headingY`, the cursor height the canvas reports right after the heading, or -100
      when the section is skipped. */
  function Summary(basics: Basics, headingY: real): (r: Summarised)
    ensures AllInSection(r.blocks)
    ensures r.blocks == [] <==> basics.summary == ""
    ensures basics.summary == "" ==> r.imageY == SkippedImageY
    ensures basics.summary != "" ==>
              && r.imageY == headingY
              && r.blocks[0] == Heading("Objective")
              && Text(1.0, basics.summary + "\n") in r.blocks
  {
    if basics.summary == "" then Summarised([], SkippedImageY)
    else Summarised([Heading("Objective"), Text(1.0, basics.summary + "\n"), Gap], headingY)
  }

  /** The summary shows the "Objective" heading only when there is a summary, and no markup. */
  lemma SummaryHeadings(basics: Basics, headingY: real)
    ensures Headings(Summary(basics, headingY).blocks) == (if basics.summary != "" then ["Objective"] else [])
    ensures HtmlTexts(Summary(basics, headingY).blocks) == []
  {
    var blocks := Summary(basics, headingY).blocks;
    if basics.summary != "" {
      NoHeadings(blocks[1..]);
    }
    NoHtml(blocks);
  }

  /** One row per skill, in input order: the name as label, the level in italics, an even split. */
  function SkillRows(skills: seq<Skill>): (rows: seq<Block>)
    ensures |rows| == |skills|
    ensures forall i :: 0 <= i < |skills| ==>
              rows[i] == Row(skills[i].name, "", skills[i].level, "I", SkillRatio)
  {
    if |skills| == 0 then []
    else [Row(skills[0].name, "", skills[0].level, "I", SkillRatio)] + SkillRows(skills[1..])
  }

  function InterestNames(interests: seq<Interest>): seq<string>
  {
    seq(|interests|, i requires 0 <= i < |interests| => interests[i].name)
  }

  /** `writeSkillsAndInterests`: nothing at all without skills, even when interests are given;
      otherwise the heading, the skill rows and, when there are interests, the interest sentence. */
  function SkillsAndInterests(cv: CV): (blocks: seq<Block>)
    ensures AllInSection(blocks)
    ensures |cv.skills| == 0 ==> blocks == []
  {
    if |cv.skills| == 0 then []
    else
      var sentence :=
        if |cv.interests| == 0 then []
        else [Line(InterestSentence(InterestNames(cv.interests))), Gap];
      [Heading("Skills & Interests")] + SkillRows(cv.skills) + [Gap] + sentence
  }

  /** The skills section holds one heading, when there are skills, and no markup. */
  lemma SkillsAndInterestsHeadings(cv: CV)
    ensures Headings(SkillsAndInterests(cv)) == (if |cv.skills| > 0 then ["Skills & Interests"] else [])
    ensures HtmlTexts(SkillsAndInterests(cv)) == []
  {
    var blocks := SkillsAndInterests(cv);
    NoHtml(blocks);
    if |cv.skills| > 0 {
      assert blocks == [Heading("Skills & Interests")] + blocks[1..];
      NoHeadings(blocks[1..]);
    }
  }

  /** With skills, the section is its heading, one row per skill, and the interest sentence exactly
      when there are interests. */
  lemma SkillsAndInterestsContent(cv: CV)
    ensures var blocks := SkillsAndInterests(cv);
            && (|cv.skills| > 0 ==>
                  && |blocks| > |cv.skills| + 1
                  && blocks[0] == Heading("Skills & Interests")
                  && blocks[1..|cv.skills| + 1] == SkillRows(cv.skills))
            && ((exists i :: 0 <= i < |blocks| && blocks[i].Line?) <==> |cv.skills| > 0 && |cv.interests| > 0)
            && (|cv.skills| > 0 && |cv.interests| > 0 ==>
                  Line(InterestSentence(InterestNames(cv.interests))) in blocks)
  {
    var blocks := SkillsAndInterests(cv);
    if |cv.skills| > 0 {
      var rows := SkillRows(cv.skills);
      var n := |rows|;
      assert blocks[1..n + 1] == rows;
      assert forall i :: 1 <= i <= n ==> blocks[i] == rows[i - 1];
      if |cv.interests| > 0 {
        assert blocks[n + 2].Line?;
        assert |blocks| == n + 4;
      } else {
        assert |blocks| == n + 2;
      }
    }
  }

  /** The content of an education row: the institution alone when no study type is given. */
  function EducationText(e: Education): string
  {
    if e.studyType == "" then e.institution
    else e.institution + " (" + e.studyType + " of " + e.area + ")"
  }

  /** The row of one education entry: its start and end years as label, then the institution,
      alone when no study type is given and otherwise followed by "(StudyType of Area)". */
  predicate IsEducationRow(e: Education, row: Block)
  {
    && row.Row?
    && row.caption == DateRange(e.startDate, e.endDate)
    && row.captionStyle == "" && row.contentStyle == ""
    && row.ratio == HistoryRatio
    && (e.studyType == "" ==> row.content == e.institution)
    && (e.studyType != "" ==> row.content == e.institution + " (" + e.studyType + " of " + e.area + ")")
  }

  /** One row per education entry, in input order. */
  function EducationRows(entries: seq<Education>): (rows: seq<Block>)
    ensures |rows| == |entries|
    ensures forall i :: 0 <= i < |entries| ==> IsEducationRow(entries[i], rows[i])
  {
    if |entries| == 0 then []
    else
      var e := entries[0];
      [Row(DateRange(e.startDate, e.endDate), "", EducationText(e), "", HistoryRatio)]
      + EducationRows(entries[1..])
  }

  /** The `courses` flag of `writeEducation`: set by any entry with a course. */
  function HasCourses(entries: seq<Education>): (any: bool)
    ensures any <==> exists i :: 0 <= i < |entries| && |entries[i].courses| > 0
  {
    if |entries| == 0 then false
    else |entries[0].courses| > 0 || HasCourses(entries[1..])
  }

  /** Every course of every entry, entry by entry. */
  function AllCourses(entries: seq<Education>): seq<string>
  {
    if |entries| == 0 then [] else entries[0].courses + AllCourses(entries[1..])
  }

  /** One markup line per course, each followed by a line break. */
  function CourseLines(courses: seq<string>): (blocks: seq<Block>)
    ensures |blocks| == 2 * |courses|
    ensures HtmlTexts(blocks) == courses
    ensures forall i :: 0 <= i < |blocks| ==> blocks[i].Html? || blocks[i].Text?
    ensures forall k :: 0 <= k < |blocks| ==>
              blocks[k] == if k % 2 == 0 then Html(1.1, courses[k / 2]) else Text(1.1, "\n")
  {
    if |courses| == 0 then []
    else
      var head := [Html(1.1, courses[0]), Text(1.1, "\n")];
      var tail := CourseLines(courses[1..]);
      HtmlTextsAppend(head, tail);
      forall k | 2 <= k < 2 * |courses|
        ensures (head + tail)[k] == if k % 2 == 0 then Html(1.1, courses[k / 2]) else Text(1.1, "\n")
      {
        assert (head + tail)[k] == tail[k - 2];
        assert (k - 2) % 2 == k % 2 && (k - 2) / 2 == k / 2 - 1;
        assert courses[1..][k / 2 - 1] == courses[k / 2];
      }
      head + tail
  }

  /** The course lines of all entries: the markup lists every course in entry, then course order. */
  function CourseBlocks(entries: seq<Education>): (blocks: seq<Block>)
    ensures HtmlTexts(blocks) == AllCourses(entries)
    ensures forall i :: 0 <= i < |blocks| ==> blocks[i].Html? || blocks[i].Text?
  {
    if |entries| == 0 then []
    else
      var head := CourseLines(entries[0].courses);
      var tail := CourseBlocks(entries[1..]);
      HtmlTextsAppend(head, tail);
      head + tail
  }

  /** There is a course to list exactly when the `courses` flag is set. */
  lemma {:induction false} CoursesIffFlag(entries: seq<Education>)
    ensures |AllCourses(entries)| > 0 <==> HasCourses(entries)
    decreases |entries|
  {
    if |entries| > 0 {
      CoursesIffFlag(entries[1..]);
    }
  }

  /** The "Courses" sub-section: present only when some entry has a course. */
  function CoursesPart(entries: seq<Education>): (blocks: seq<Block>)
    ensures AllInSection(blocks)
    ensures Headings(blocks) == (if HasCourses(entries) then ["Courses"] else [])
    ensures HtmlTexts(blocks) == AllCourses(entries)
  {
    CoursesIffFlag(entries);
    if !HasCourses(entries) then []
    else
      var inner := CourseBlocks(entries) + [Gap];
      NoHeadings(inner);
      HtmlTextsAppend(CourseBlocks(entries), [Gap]);
      HeadingsAppend([Heading("Courses")], inner);
      HtmlTextsAppend([Heading("Courses")], inner);
      [Heading("Courses")] + inner
  }

  /** The heading and entry rows of the education section carry one heading and no markup. */
  lemma EducationHeadFacts(entries: seq<Education>)
    ensures var head := [Heading("Education")] + EducationRows(entries) + [Gap];
            Headings(head) == ["Education"] && HtmlTexts(head) == [] && AllInSection(head)
  {
    var rows := EducationRows(entries) + [Gap];
    NoHeadings(rows);
    NoHtml(rows);
    HeadingsAppend([Heading("Education")], rows);
    HtmlTextsAppend([Heading("Education")], rows);
    assert [Heading("Education")] + EducationRows(entries) + [Gap] == [Heading("Education")] + rows;
  }

  /** "Education" when there are entries, followed by "Courses" when some entry has a course. */
  function EducationHeadings(entries: seq<Education>): seq<string>
  {
    if |entries| == 0 then []
    else if HasCourses(entries) then ["Education", "Courses"]
    else ["Education"]
  }

  /** `writeEducation`: nothing without entries; otherwise the heading and one row per entry, then,
      only if some entry has courses, the "Courses" heading and every course. */
  function EducationSection(cv: CV): (blocks: seq<Block>)
    ensures AllInSection(blocks)
    ensures |cv.education| == 0 ==> blocks == []
  {
    var entries := cv.education;
    if |entries| == 0 then []
    else
      var head := [Heading("Education")] + EducationRows(entries) + [Gap];
      EducationHeadFacts(entries);
      AllInSectionAppend(head, CoursesPart(entries));
      head + CoursesPart(entries)
  }

  /** With entries, the section is its heading and one row per entry, followed by the courses
      sub-section; its headings are "Education" and, only when some entry has a course, "Courses";
      its markup lists every course. */
  lemma EducationContent(cv: CV)
    ensures var blocks := EducationSection(cv);
            && Headings(blocks) == EducationHeadings(cv.education)
            && HtmlTexts(blocks) == AllCourses(cv.education)
            && (|cv.education| > 0 ==>
                  && |blocks| > |cv.education|
                  && blocks[0] == Heading("Education")
                  && blocks[1..|cv.education| + 1] == EducationRows(cv.education))
  {
    var entries := cv.education;
    if |entries| > 0 {
      var rows := EducationRows(entries);
      var head := [Heading("Education")] + rows + [Gap];
      var courses := CoursesPart(entries);
      assert EducationSection(cv) == head + courses;
      EducationHeadFacts(entries);
      HeadingsAppend(head, courses);
      HtmlTextsAppend(head, courses);
      assert Headings(head + courses) == EducationHeadings(entries) by {
        if HasCourses(entries) {
          assert Headings(courses) == ["Courses"];
          assert ["Education"] + ["Courses"] == ["Education", "Courses"];
        } else {
          assert Headings(courses) == [];
        }
      }
      assert (head + courses)[1..|entries| + 1] == rows by {
        assert head[1..|entries| + 1] == rows;
      }
    }
  }

  /** The italic-label "+ highlight" rows of a job. */
  function HighlightRows(highlights: seq<string>): (rows: seq<Block>)
    ensures |rows| == |highlights|
    ensures forall i :: 0 <= i < |highlights| ==>
              rows[i] == Row("", "I", "+ " + highlights[i], "", HistoryRatio)
  {
    if |highlights| == 0 then []
    else [Row("", "I", "+ " + highlights[0], "", HistoryRatio)] + HighlightRows(highlights[1..])
  }

  /** The three kinds of row of a job: "Company (Position)" labelled with its years (no label
      without a start date), the job summary, and one row per highlight. */
  function JobRows(job: Work): (rows: seq<Block>)
    ensures |rows| == 2 + |job.highlights|
    ensures forall i :: 0 <= i < |rows| ==> rows[i].Row? && rows[i].ratio == HistoryRatio
    ensures rows[0].content == job.company + " (" + job.position + ")"
    ensures rows[0].captionStyle == "" && rows[0].contentStyle == ""
    ensures job.startDate == "" ==> rows[0].caption == ""
    ensures job.startDate != "" ==> rows[0].caption == DateRange(job.startDate, job.endDate)
    ensures rows[1] == Row("", "", job.summary, "", HistoryRatio)
    ensures rows[2..] == HighlightRows(job.highlights)
  {
    var title := job.company + " (" + job.position + ")";
    var years := if job.startDate != "" then DateRange(job.startDate, job.endDate) else "";
    [Row(years, "", title, "", HistoryRatio), Row("", "", job.summary, "", HistoryRatio)]
    + HighlightRows(job.highlights)
  }

  /** Every job contributes a title row, a summary row and a row per highlight. */
  function RowCount(jobs: seq<Work>): nat
  {
    if |jobs| == 0 then 0 else 2 + |jobs[0].highlights| + RowCount(jobs[1..])
  }

  /** The rows of every job, job by job: as many as the jobs contribute. */
  function WorkRows(jobs: seq<Work>): (rows: seq<Block>)
    ensures |rows| == RowCount(jobs)
    ensures forall i :: 0 <= i < |rows| ==> rows[i].Row?
    ensures |jobs| > 0 ==>
              && |rows| >= 2 + |jobs[0].highlights|
              && rows[..2 + |jobs[0].highlights|] == JobRows(jobs[0])
  {
    if |jobs| == 0 then [] else JobRows(jobs[0]) + WorkRows(jobs[1..])
  }

  /** Where the rows of the j-th job begin: after the rows of the jobs before it. */
  function JobStart(jobs: seq<Work>, j: nat): nat
    requires j <= |jobs|
  {
    RowCount(jobs[..j])
  }

  /** Where the rows of the j-th job end: where those of the next job would begin. */
  function JobEnd(jobs: seq<Work>, j: nat): nat
    requires j < |jobs|
  {
    RowCount(jobs[..j + 1])
  }

  /** The first job's rows open the work rows. */
  lemma JobStartOfFirst(jobs: seq<Work>)
    requires |jobs| > 0
    ensures JobStart(jobs, 0) == 0
    ensures JobStart(jobs, 1) == 2 + |jobs[0].highlights| <= |WorkRows(jobs)|
    ensures WorkRows(jobs)[0..JobStart(jobs, 1)] == JobRows(jobs[0])
  {
    assert jobs[..1][1..] == [];
  }

  /** Past the first job, every start is shifted by the first job's rows. */
  lemma JobStartShift(jobs: seq<Work>, j: nat)
    requires 1 <= j <= |jobs|
    ensures JobStart(jobs, j) == 2 + |jobs[0].highlights| + JobStart(jobs[1..], j - 1)
  {
    assert jobs[..j][1..] == jobs[1..][..j - 1];
  }

  /** A slice of the part after `head` in `head + tail`, seen from the whole sequence. */
  lemma ShiftedSlice(rows: seq<Block>, head: seq<Block>, tail: seq<Block>, lo: nat, hi: nat,
                     start: nat, end: nat, piece: seq<Block>)
    requires rows == head + tail
    requires lo <= hi <= |tail| && tail[lo..hi] == piece
    requires start == |head| + lo && end == |head| + hi
    ensures start <= end <= |rows|
    ensures rows[start..end] == piece
  {
    assert rows[start..end] == tail[lo..hi];
  }

  /** A later job's rows, found among the rows of the jobs after the first, shifted by the first
      job's rows. */
  lemma LaterJobRows(jobs: seq<Work>, j: nat)
    requires 1 <= j < |jobs|
    requires JobStart(jobs[1..], j - 1) <= JobEnd(jobs[1..], j - 1) <= |WorkRows(jobs[1..])|
    requires WorkRows(jobs[1..])[JobStart(jobs[1..], j - 1)..JobEnd(jobs[1..], j - 1)] == JobRows(jobs[j])
    ensures JobStart(jobs, j) <= JobEnd(jobs, j) <= |WorkRows(jobs)|
    ensures WorkRows(jobs)[JobStart(jobs, j)..JobEnd(jobs, j)] == JobRows(jobs[j])
  {
    var head := JobRows(jobs[0]);
    var rest := jobs[1..];
    var lo := JobStart(rest, j - 1);
    var hi := JobEnd(rest, j - 1);
    JobStartShift(jobs, j);
    JobStartShift(jobs, j + 1);
    ShiftedSlice(WorkRows(jobs), head, WorkRows(rest), lo, hi, JobStart(jobs, j), JobEnd(jobs, j), JobRows(jobs[j]));
  }

  /** The rows of the j-th job sit, in full, right after the rows of the jobs before it. */
  lemma {:induction false} WorkRowsOfJob(jobs: seq<Work>, j: nat)
    requires j < |jobs|
    ensures JobStart(jobs, j) <= JobEnd(jobs, j) <= |WorkRows(jobs)|
    ensures WorkRows(jobs)[JobStart(jobs, j)..JobEnd(jobs, j)] == JobRows(jobs[j])
    decreases j
  {
    if j == 0 {
      JobStartOfFirst(jobs);
      assert JobEnd(jobs, 0) == JobStart(jobs, 1);
    } else {
      WorkRowsOfJob(jobs[1..], j - 1);
      assert jobs[1..][j - 1] == jobs[j];
      LaterJobRows(jobs, j);
    }
  }

  /** Every job's rows, in job order: the j-th job's rows start where those of the jobs before it
      end. */
  lemma WorkRowsPerJob(jobs: seq<Work>)
    ensures forall j :: 0 <= j < |jobs| ==>
              && JobStart(jobs, j) <= JobEnd(jobs, j) <= |WorkRows(jobs)|
              && WorkRows(jobs)[JobStart(jobs, j)..JobEnd(jobs, j)] == JobRows(jobs[j])
  {
    forall j | 0 <= j < |jobs| {
      WorkRowsOfJob(jobs, j);
    }
  }

  /** `writeWork`: nothing without jobs; otherwise the heading, the rows of each job and a gap. */
  function WorkSection(cv: CV): (blocks: seq<Block>)
    ensures AllInSection(blocks)
    ensures |cv.work| == 0 ==> blocks == []
  {
    if |cv.work| == 0 then [] else [Heading("Work")] + WorkRows(cv.work) + [Gap]
  }

  /** With jobs, the section is its heading, the rows of every job and a gap; it has one heading
      and no markup. */
  lemma WorkContent(cv: CV)
    ensures var blocks := WorkSection(cv);
            && Headings(blocks) == (if |cv.work| > 0 then ["Work"] else [])
            && HtmlTexts(blocks) == []
            && (|cv.work| > 0 ==>
                  && |blocks| >= 2
                  && blocks[0] == Heading("Work")
                  && blocks[1..|blocks| - 1] == WorkRows(cv.work)
                  && blocks[|blocks| - 1] == Gap)
  {
    var blocks := WorkSection(cv);
    NoHtml(blocks);
    if |cv.work| > 0 {
      Framed(blocks, Heading("Work"), WorkRows(cv.work), Gap);
    }
  }

  /** A heading, then heading-free blocks, then a closing block without a heading. */
  lemma Framed(blocks: seq<Block>, head: Block, mid: seq<Block>, last: Block)
    requires blocks == [head] + mid + [last]
    requires head.Heading? && !last.Heading?
    requires forall i :: 0 <= i < |mid| ==> !mid[i].Heading?
    ensures |blocks| >= 2 && blocks[0] == head && blocks[|blocks| - 1] == last
    ensures blocks[1..|blocks| - 1] == mid
    ensures Headings(blocks) == [head.name]
  {
    var tail := mid + [last];
    assert forall i :: 0 <= i < |tail| ==> !tail[i].Heading?;
    NoHeadings(tail);
    assert blocks == [head] + tail;
    assert blocks[1..] == tail;
  }

  /** The attribution line of `writeCredit`, as markup. */
  const CreditHtml: string :=
    "<i>Generated with Aaron Malpas' CV generator (<a href=\"https://github.com/malpas/amcvgen\">github.com/malpas/amcvgen</a>)</i>"

  /** `writeCredit`: a thin rule, then the attribution line; no heading. */
  function Credit(): (blocks: seq<Block>)
    ensures Headings(blocks) == [] && HtmlTexts(blocks) == [CreditHtml]
    ensures blocks[0] == Rule
  {
    var blocks := [Rule, Html(1.0, CreditHtml)];
    NoHeadings(blocks);
    HtmlTextsAppend([Rule], [Html(1.0, CreditHtml)]);
    assert blocks == [Rule] + [Html(1.0, CreditHtml)];
    blocks
  }
}
