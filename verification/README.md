# amcvgen résumé composer, modelled in Dafny

amcvgen turns a résumé record in the JSON Resume schema into a PDF. Its core is a fixed
sequence of section renderers. `main` writes the document title, then calls the section renderers
in order: header, summary, skills and interests, work, education, the optional credit and the
photo. Each renderer skips its section when its data is absent. Only one error exists: the header
rejects an address given without a city. The renderers draw through a few helpers: the title cell,
the section heading, the two-column label/content row and the image.

The model has two layers:

- **Blocks** (`Common.Block`). Each section renderer is a pure function from the résumé to a
  sequence of abstract draw operations. There is one kind of operation per helper: title, heading,
  label/content row, right-aligned contact line, plain line, flowing text, markup, rule, photo.
- **Canvas calls** (`Canvas.Op`). Each block is lowered to the gofpdf calls its helper issues:
  cells with their font, width, border, alignment, line break and link; `Write`; basic-HTML
  `Write`; the rule cell; the image. Page geometry is a parameter. `main` uses 10 mm margins.

Every operation has a partner:

- The lowering's partner is a parser (`Readback.Raise`) that reads the calls back into the blocks.
- The composed document's partner is a set of document-level properties: section order, the
  headings present, the markup, and where the credit and the photo sit.
- The interest sentence's partner is an independent definition of an English list.
- The year extraction's partner is a model of Go's `strings.Split` and `strings.Join` with their
  round-trip lemmas.
- A worked example composes a concrete résumé end to end.

Files:

- `results.dfy`: `Option` and `Result`.
- `strings.dfy`: `strings.Split` and `strings.Join` with a one-character separator.
- `cv.dfy`: the résumé fields the renderer reads.
- `canvas.dfy`: page geometry and canvas calls.
- `common.dfy`: the common.go helpers, blocks and lowering.
- `readback.dfy`: the inverse of the lowering.
- `interests.dfy`: the interest sentence.
- `sections.dfy`: the section renderers of sections.go.
- `composer.dfy`: the composition sequence of main.go.
- `program.dfy`: the command line.
- `scenario.dfy`: the worked example.

Behaviour of the code worth knowing:

- The header draws no name or label line. The only name on the page is the document title, drawn
  by `writeTitle`.
- The work section is drawn before the education section (main.go:61-62).
- The photo is drawn last, flush with the right page edge. Its height is the value `writeSummary`
  returned: the cursor height after the "Objective" heading, or -100 when there is no summary.
- A job highlight row uses the italic style for its empty label column. Its content "+ highlight"
  is plain.
- A missing postal code only prints a warning. The city line is then "City " with a trailing space.
- The title suffix is spelled "Cirriculum Vitae", as in the program.
- Interests are dropped silently when there are no skills, because the skills section returns
  early.

## Model

| member | source | states |
|---|---|---|
| Canvas.ContentWidth | common.go:18-22 | The content width and the two margins add up exactly to the page width. |
| Strings.SplitPieces | common.go:82 | No piece of a split contains the separator, and joining the pieces with it gives back the original string. |
| Strings.SplitJoin | common.go:82 | Splitting undoes joining whenever no piece contains the separator. |
| Strings.SplitAfterPrefix | common.go:82 | Splitting a separator-free prefix, the separator and a rest yields the prefix followed by the split of the rest. |
| Common.YearOfDate | common.go:80-83 | The year is a prefix of the date and contains no '-'. When it is shorter than the date, a '-' follows it. |
| Common.YearOfDateOf | common.go:80-83 | A date without '-' is its own year, and a year followed by '-' and anything is recovered from that date. |
| Common.YearOfDateExamples | common.go:80-83 | "2011-01-11" gives "2011", "2020" gives "2020", and the empty date gives the empty year. |
| Common.DateRange | sections.go:112-113 | The label of a dated row starts with the start year followed by '-'. |
| Common.DateRangeSplits | sections.go:112-113 | A "start-end" label splits at '-' into exactly the two years it was made from. |
| Common.WriteTitle | common.go:46-53 | The title is one left-aligned 20 pt cell as wide as the content, and it ends the line. |
| Common.WriteSectionName | common.go:26-31 | A heading is a full-width 15 pt cell with a bottom border that ends the line, followed by half a line of space. |
| Common.WriteLabelWithText | common.go:35-43 | A row is two cells whose widths split the content width by the ratio and add up to it. Only the content cell ends the line, and each cell carries its own style. |
| Common.WriteRight | sections.go:15-22 | A contact line is a full-width right-aligned cell carrying the link. It is underlined exactly when it links somewhere. |
| Common.DrawImage | common.go:56-73 | Nothing is drawn exactly when the résumé names no photo; otherwise the photo is drawn at the given height. |
| Readback.RaiseLower | common.go:26-53 | Reading back the calls of one block, followed by readable calls, yields that block first. The helpers leave distinct traces. |
| Readback.RaiseLowerAll | common.go:26-53 | On any page with non-zero content width, the canvas calls of any block sequence read back as exactly that sequence. |
| Sections.RightOrSkip | sections.go:23-29 | An empty field draws nothing; otherwise one right-aligned line with the given link is drawn. |
| Sections.Header | sections.go:31-47 | The header fails exactly when an address is given without a city, with the message "Missing city". Otherwise every line it draws is right-aligned. |
| Sections.HeaderContacts | sections.go:31-47 | The header draws the address and "City PostalCode" only with an address, then the e-mail as a "mailto:" link, then the phone. Each absent field is skipped, and the number of lines matches. |
| Sections.Summary | sections.go:53-65 | The summary draws nothing exactly when it is empty, and then returns -100. Otherwise it starts with the "Objective" heading, contains the summary text and returns the height after the heading. |
| Sections.SummaryHeadings | sections.go:53-65 | The summary section's only heading is "Objective", present only with a summary, and it has no markup. |
| Sections.SkillRows | sections.go:76-78 | There is one row per skill, in input order: the name as label, the level in italics, an even split. |
| Sections.SkillsAndInterests | sections.go:68-72 | Without skills nothing is drawn, even when there are interests. |
| Sections.SkillsAndInterestsHeadings | sections.go:68-73 | The section has the one heading "Skills & Interests" exactly when there are skills, and no markup. |
| Sections.SkillsAndInterestsContent | sections.go:73-94 | The heading is followed by the skill rows. A plain line is drawn exactly when there are both skills and interests, and it is the interest sentence. |
| Interests.BuildInterestSentence | sections.go:83-91 | The loop as written (", " before each later interest, " and " before the last) computes the sentence. |
| Interests.LovePiecesShape | sections.go:83-91 | One interest gives "I love A."; two or more give the comma-joined interests, then " and ", the last interest and ".". |
| Interests.AndExactlyBeforeLast | sections.go:84-89 | " and " occurs exactly once with two or more interests and never with one, immediately before the last name, which ends the sentence. |
| Interests.JoinedRendersAsList | sections.go:84-90 | With two or more interests, the text after the first name is ", " before each middle name, then " and " and the last name. |
| Interests.NaturalListOfSeveral | sections.go:83-91 | The English list of two or more names is the first name, ", " before each middle name, then " and " and the last. |
| Interests.SentenceIsNaturalList | sections.go:83-91 | The sentence the section writes is "I love " followed by the English list of the interests ("A", "A and B", "A, B and C", ...) and a full stop. |
| Interests.OneInterest | sections.go:83-91 | One interest A gives "I love A.". |
| Interests.TwoInterests | sections.go:83-91 | [A, B] gives "I love A and B.". |
| Interests.ThreeInterests | sections.go:83-91 | [A, B, C] gives "I love A, B and C.". |
| Sections.EducationRows | sections.go:106-114 | There is one row per education entry, in order, labelled with the start and end years. The content is the institution alone without a study type, otherwise "Institution (StudyType of Area)". |
| Sections.HasCourses | sections.go:105-118 | The courses flag is set exactly when some entry lists a course. |
| Sections.CoursesIffFlag | sections.go:115-125 | There is a course to list exactly when the flag is set. |
| Sections.CourseLines | sections.go:128-132 | Each course gives one markup line followed by a line break, and the markup is exactly the courses. |
| Sections.CourseBlocks | sections.go:126-133 | The markup lists every course, entry by entry and course by course. |
| Sections.CoursesPart | sections.go:121-134 | The "Courses" heading appears only when some entry has a course, and the markup is every course. |
| Sections.EducationSection | sections.go:98-104 | Without entries nothing is drawn; everything drawn is section content. |
| Sections.EducationContent | sections.go:98-134 | The headings are "Education", then "Courses" only when some entry has a course. The rows follow the heading, and the markup lists every course. |
| Sections.HighlightRows | sections.go:154-156 | There is one row per highlight, in order, with an empty italic label and the content "+ highlight". |
| Sections.JobRows | sections.go:145-156 | A job gives its title row "Company (Position)", the summary row and one row per highlight. The title row is labelled with the years, or unlabelled when there is no start date, and both its columns use the plain style. |
| Sections.WorkRows | sections.go:145-157 | Every block is a row; there are exactly two rows per job plus one per highlight, and the first job's rows come first. |
| Sections.WorkRowsOfJob | sections.go:145-156 | The rows of the j-th job appear in full, starting right after the rows of the jobs before it. |
| Sections.WorkRowsPerJob | sections.go:145-156 | Every job's rows appear in job order, each job's block of rows starting where the previous job's ends. |
| Sections.WorkSection | sections.go:138-144 | Without jobs nothing is drawn; everything drawn is section content. |
| Sections.WorkContent | sections.go:138-158 | The "Work" heading is the section's only heading, present exactly with jobs. It is followed by every job's rows, and the section has no markup. |
| Sections.Credit | sections.go:162-167 | The credit is a rule followed by one markup line, the attribution link, and it has no heading. |
| Composer.Body | main.go:59-62 | The sections after the header hold only section content. |
| Composer.ImageY | main.go:59-68 | The photo height is -100 without a summary and the height after the "Objective" heading with one. |
| Composer.Compose | main.go:52-68 | Composition fails exactly when the header does, with its message, and then nothing else is drawn. Otherwise the document starts with the title "Name - Cirriculum Vitae". |
| Composer.CreditPart | main.go:63-66 | The credit part holds a rule exactly when the credit is asked for. Its markup is then the one attribution line, and it has no heading. |
| Composer.BodyHeadings | main.go:59-62 | The section headings are Objective, Skills & Interests, Work, Education, Courses, each present only with its data. |
| Composer.SectionOrder | main.go:52-68 | For a résumé whose address, if any, comes with a city: the headings of the whole document are those same section headings in that order. |
| Composer.HeadingsOfParts | main.go:52-68 | A document assembled from a title, contact lines, sections, a heading-free credit and a photo has exactly the sections' headings. |
| Composer.ComposedIsAssembled | main.go:52-68 | For a résumé whose address, if any, comes with a city: a composed document is the title, then the contact lines, the section blocks, the optional credit of rule and markup, and at most one photo. |
| Composer.DocumentHead | main.go:52-58 | In such a document the title is first and unique, and the contact lines follow it immediately and are the only right-aligned blocks. |
| Composer.DocumentRule | main.go:59-66 | In such a document a rule exists exactly when the credit holds one, and every rule follows every heading and row. |
| Composer.DocumentPhoto | main.go:63-68 | In such a document a photo can only be the last block. It is the photo part when there is one, and otherwise the last block is no photo. |
| Composer.TitleThenContacts | main.go:52-58 | For a résumé whose address, if any, comes with a city: the title is the first and only title block. It is followed immediately by the header's contact lines, and no other block is right-aligned. |
| Composer.CreditLast | main.go:59-66 | For a résumé whose address, if any, comes with a city: the credit's rule is drawn exactly when the credit is asked for, after every heading and row. |
| Composer.MarkupOfParts | main.go:52-68 | The markup of an assembled document is that of its sections followed by that of its credit. |
| Composer.CreditMarkup | main.go:62-66 | For a résumé whose address, if any, comes with a city: the markup of a composed document is every course, then the credit line when it is asked for. |
| Composer.BodyMarkup | main.go:59-62 | The markup of the sections is the list of all courses. |
| Composer.PhotoLast | main.go:59-68 | For a résumé whose address, if any, comes with a city: the photo, when the résumé names one, is the last block, at -100 without a summary and otherwise at the height after the heading. No photo block exists otherwise. |
| Program.MainPage | main.go:46-48 | With 10 mm margins the content width is the page width less 20. |
| Program.Execute | main.go:33-58 | Only the usage is printed with -h or without a file argument. The run stops with "Missing city" exactly when the header fails, and otherwise it draws. |
| Program.ExecuteDrawsComposition | main.go:43-68 | The canvas calls of a drawing run read back as exactly the composed document. |
| Scenario.StartYear | common.go:80-83 | "2019-01-01" has year "2019". |
| Scenario.EndYear | common.go:80-83 | "2020-01-01" has year "2020". |
| Scenario.JaneDoeHighlight | sections.go:154-156 | Her highlight is the italic-labelled row "+ Shipped X". |
| Scenario.JaneDoeWork | sections.go:138-158 | For job dates with years 2019 and 2020, her Work section is the heading, the row "2019-2020" / "Acme (Eng)", the summary row, the highlight row and the gap. |
| Scenario.JaneDoeHeader | sections.go:31-47 | Her header is the single e-mail line with its "mailto:" link. |
| Scenario.JaneDoeBody | main.go:59-68 | Without summary, skills or education only the Work section follows the header, and no photo is placed. |
| Scenario.JaneDoeHeadings | main.go:59-62 | "Work" is the only section heading she gets. |
| Scenario.JaneDoeComposition | main.go:52-68 | For any job dates with years 2019 and 2020, her full document is exactly: title, e-mail line, Work heading, the three job rows, the gap. |
| Scenario.JaneDoeDocument | main.go:52-68 | The same document results with her actual dates, 2019-01-01 to 2020-01-01. |

## Left out

- Cell heights (multiples of the font's line height), and the pen and text colours, are not modelled.
- Fonts are modelled as style and size only; the family is always Arial.
- Cursor movement is left out. The one cursor height the program uses, read after the "Objective"
  heading, is the parameter `headingY`.
- The rule cell of the credit records only its width. Its font and its 2 mm height are left out.
- Loading and decoding the résumé file (`loadCV`) is left out, together with its exits on a missing
  or malformed file. The decoded résumé is a parameter. `loadCV` calls `NewCV`, which cv.go does not
  define (it has `NewCVFromText`), so the call cannot be modelled as written.
- YAML decoding is left out, and so are the schema types the renderer never reads: volunteer,
  awards, languages, references, publications, profiles, website, label, GPA, keywords, and the country code and
  region of the location.
- Common.DrawImage: the photo's x position (page width less the image's pixel width) is not
  modelled, and neither is the exit when the file cannot be opened. Both need the image file.
- The page size is a parameter rather than A4. The lowering is invertible only on pages with
  non-zero content width.
- Diagnostic prints ("Skipped …", the postal-code warning, "Success!") are not modelled.
- The PDF metadata title (`SetTitle`) and the output file (`OutputFileAndClose`, whose error is only
  printed) are left out.
- `getDateString` is not modelled, because no core operation calls it.
- The label column is called `caption`, because `label` is a reserved word in Dafny.
