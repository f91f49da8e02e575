/** A worked composition: a résumé with only an e-mail address and one job. */
module Scenario {
  import opened Results
  import opened CVModel
  import opened Common
  import opened Sections
  import opened Composer

  /** Jane Doe: no photo, address, phone or summary; one job at Acme with one highlight; no
      education, skills or interests. The job's dates are parameters so that the lemmas below
      hold for every pair of dates with the same years. */
  function JaneDoeWith(startDate: string, endDate: string): CV
  {
    CV(Basics("Jane Doe", "", "jane@x.com", "", "", Location("", "", "")),
       [Work("Acme", "Eng", startDate, endDate, "Built things", ["Shipped X"])],
       [], [], [])
  }

  /** Her résumé, with the job running from 2019-01-01 to 2020-01-01. */
  function JaneDoe(): CV
  {
    JaneDoeWith("2019-01-01", "2020-01-01")
  }

  /** The years of her job's dates, taken one date at a time. */
  lemma StartYear()
    ensures YearOfDate("2019-01-01") == "2019"
  {
    YearOfDateOf("2019", "01-01");
    assert "2019" + "-" + "01-01" == "2019-01-01";
  }

  lemma EndYear()
    ensures YearOfDate("2020-01-01") == "2020"
  {
    YearOfDateOf("2020", "01-01");
    assert "2020" + "-" + "01-01" == "2020-01-01";
  }

  /** Her highlight, as an italic-labelled row. */
  lemma JaneDoeHighlight()
    ensures HighlightRows(["Shipped X"]) == [Row("", "I", "+ Shipped X", "", 0.14)]
  {
    assert ["Shipped X"][1..] == [];
    assert "+ " + "Shipped X" == "+ Shipped X";
  }

  /** Her one job gives the Work section its heading, three rows and the closing gap. */
  lemma JaneDoeWork(startDate: string, endDate: string)
    requires YearOfDate(startDate) == "2019" && YearOfDate(endDate) == "2020"
    ensures WorkSection(JaneDoeWith(startDate, endDate)) == [Heading("Work"),
              Row("2019-2020", "", "Acme (Eng)", "", 0.14),
              Row("", "", "Built things", "", 0.14),
              Row("", "I", "+ Shipped X", "", 0.14),
              Gap]
  {
    var cv := JaneDoeWith(startDate, endDate);
    assert startDate != "";
    assert DateRange(startDate, endDate) == "2019-2020";
    assert "Acme" + " (" + "Eng" + ")" == "Acme (Eng)";
    JaneDoeHighlight();
    var rows := [Row("2019-2020", "", "Acme (Eng)", "", 0.14),
                 Row("", "", "Built things", "", 0.14),
                 Row("", "I", "+ Shipped X", "", 0.14)];
    assert JobRows(cv.work[0]) == rows;
    assert cv.work[1..] == [];
    assert WorkRows(cv.work) == rows;
  }

  /** Her header has a single contact line, the e-mail as a "mailto:" link. */
  lemma JaneDoeHeader(startDate: string, endDate: string)
    ensures Header(JaneDoeWith(startDate, endDate).basics) == Success([Right("jane@x.com", "mailto:jane@x.com")])
  {
    var basics := JaneDoeWith(startDate, endDate).basics;
    assert "mailto:" + "jane@x.com" == "mailto:jane@x.com";
    assert RightOrSkip(basics.email, "mailto:" + basics.email) == [Right("jane@x.com", "mailto:jane@x.com")];
    assert RightOrSkip(basics.phone, "") == [];
    assert [] + [Right("jane@x.com", "mailto:jane@x.com")] + [] == [Right("jane@x.com", "mailto:jane@x.com")];
  }

  /** Without a summary, skills or education, only the Work section is drawn after the header,
      and no photo is placed. */
  lemma JaneDoeBody(startDate: string, endDate: string, headingY: real)
    ensures Body(JaneDoeWith(startDate, endDate), headingY) == WorkSection(JaneDoeWith(startDate, endDate))
    ensures DrawImage("", ImageY(JaneDoeWith(startDate, endDate), headingY)) == []
  {
    var cv := JaneDoeWith(startDate, endDate);
    assert Summary(cv.basics, headingY).blocks == [];
    assert SkillsAndInterests(cv) == [];
    assert EducationSection(cv) == [];
    assert [] + [] + WorkSection(cv) + [] == WorkSection(cv);
  }

  /** A document without credit and photo is its title, its contact lines and its body. */
  lemma ComposedWithoutExtras(cv: CV, headingY: real, contacts: seq<Block>)
    requires Header(cv.basics) == Success(contacts)
    requires cv.basics.picture == ""
    ensures Compose(cv, false, headingY)
            == Success([Title(DocumentTitle(cv.basics.name))] + contacts + Body(cv, headingY))
  {
    assert [Title(DocumentTitle(cv.basics.name))] + contacts + Body(cv, headingY) + [] + []
        == [Title(DocumentTitle(cv.basics.name))] + contacts + Body(cv, headingY);
  }

  /** Without the credit, her document is its title, the e-mail line and the Work section. */
  lemma JaneDoeParts(startDate: string, endDate: string, headingY: real)
    ensures Compose(JaneDoeWith(startDate, endDate), false, headingY)
            == Success([Title(DocumentTitle("Jane Doe"))] + [Right("jane@x.com", "mailto:jane@x.com")]
                       + WorkSection(JaneDoeWith(startDate, endDate)))
  {
    JaneDoeHeader(startDate, endDate);
    JaneDoeBody(startDate, endDate, headingY);
    ComposedWithoutExtras(JaneDoeWith(startDate, endDate), headingY, [Right("jane@x.com", "mailto:jane@x.com")]);
  }

  /** Her document's title, with the program's spelling of the suffix. */
  lemma JaneDoeTitle()
    ensures DocumentTitle("Jane Doe") == "Jane Doe - Cirriculum Vitae"
  {
  }

  /** The title and e-mail line followed by her Work section, as one sequence. */
  lemma JaneDoeLayout(work: seq<Block>)
    requires work == [Heading("Work"), Row("2019-2020", "", "Acme (Eng)", "", 0.14),
                      Row("", "", "Built things", "", 0.14), Row("", "I", "+ Shipped X", "", 0.14), Gap]
    ensures [Title("Jane Doe - Cirriculum Vitae")] + [Right("jane@x.com", "mailto:jane@x.com")] + work
            == [Title("Jane Doe - Cirriculum Vitae"), Right("jane@x.com", "mailto:jane@x.com"),
                Heading("Work"), Row("2019-2020", "", "Acme (Eng)", "", 0.14),
                Row("", "", "Built things", "", 0.14), Row("", "I", "+ Shipped X", "", 0.14),
                Text(1.0, "\n")]
  {
  }

  /** Without the credit, her résumé composes into the title, the e-mail line and the Work
      section: the years label "Acme (Eng)", then the job summary, the highlight in the italic
      label style, and the closing gap. */
  lemma JaneDoeComposition(startDate: string, endDate: string, headingY: real)
    requires YearOfDate(startDate) == "2019" && YearOfDate(endDate) == "2020"
    ensures Compose(JaneDoeWith(startDate, endDate), false, headingY) == Success([
              Title("Jane Doe - Cirriculum Vitae"),
              Right("jane@x.com", "mailto:jane@x.com"),
              Heading("Work"),
              Row("2019-2020", "", "Acme (Eng)", "", 0.14),
              Row("", "", "Built things", "", 0.14),
              Row("", "I", "+ Shipped X", "", 0.14),
              Text(1.0, "\n")])
  {
    JaneDoeParts(startDate, endDate, headingY);
    JaneDoeTitle();
    JaneDoeWork(startDate, endDate);
    JaneDoeLayout(WorkSection(JaneDoeWith(startDate, endDate)));
  }

  /** Of all the section headings only "Work" appears in her document. */
  lemma JaneDoeHeadings(startDate: string, endDate: string)
    ensures ExpectedHeadings(JaneDoeWith(startDate, endDate)) == ["Work"]
  {
    assert EducationHeadings([]) == [];
  }

  /** The document of her résumé as dated: the years "2019-2020" label the Acme row. */
  lemma JaneDoeDocument(headingY: real)
    ensures Compose(JaneDoe(), false, headingY) == Success([
              Title("Jane Doe - Cirriculum Vitae"),
              Right("jane@x.com", "mailto:jane@x.com"),
              Heading("Work"),
              Row("2019-2020", "", "Acme (Eng)", "", 0.14),
              Row("", "", "Built things", "", 0.14),
              Row("", "I", "+ Shipped X", "", 0.14),
              Text(1.0, "\n")])
  {
    StartYear();
    EndYear();
    JaneDoeComposition("2019-01-01", "2020-01-01", headingY);
  }
}
