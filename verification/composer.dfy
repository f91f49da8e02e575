/** The composition sequence of main.go: the document title, the header, the sections in their
    fixed order, the optional credit and the photo. */
module Composer {
  import opened Results
  import opened CVModel
  import opened Canvas
  import opened Common
  import opened Sections
  import opened Readback

  /** The document title: the applicant's name followed by the fixed suffix (spelling as in the
      program). */
  function DocumentTitle(name: string): string
  {
    name + " - Cirriculum Vitae"
  }

  /** The sections after the header, in the order main.go writes them. */
  function Body(cv: CV, headingY: real): (blocks: seq<Block>)
    ensures AllInSection(blocks)
  {
    var s := Summary(cv.basics, headingY).blocks;
    var k := SkillsAndInterests(cv);
    var w := WorkSection(cv);
    var e := EducationSection(cv);
    AllInSectionAppend(s, k);
    AllInSectionAppend(s + k, w);
    AllInSectionAppend(s + k + w, e);
    s + k + w + e
  }

  /** The height at which the photo is placed: the one `writeSummary` returned. */
  function ImageY(cv: CV, headingY: real): (y: real)
    ensures cv.basics.summary == "" ==> y == -100.0
    ensures cv.basics.summary != "" ==> y == headingY
  {
    Summary(cv.basics, headingY).imageY
  }

  /** The whole document, or the header's error, in which case nothing after the header is drawn.
      `headingY` is the cursor height the canvas reports after the "Objective" heading. */
  function Compose(cv: CV, credited: bool, headingY: real): (r: Result<seq<Block>>)
    ensures r.Failure? <==> cv.basics.location.address != "" && cv.basics.location.city == ""
    ensures r.Failure? ==> r.error == "Missing city"
    ensures r.Success? ==> |r.value| >= 1 && r.value[0] == Title(DocumentTitle(cv.basics.name))
  {
    match Header(cv.basics)
    case Failure(e) => Failure(e)
    case Success(contacts) =>
      Success(Parts(cv.basics.name, contacts, Body(cv, headingY), credited, cv.basics.picture,
                    ImageY(cv, headingY)))
  }

  /** The credit part: the credit when it is asked for, nothing otherwise. */
  function CreditPart(credited: bool): (blocks: seq<Block>)
    ensures forall i :: 0 <= i < |blocks| ==> blocks[i].Rule? || blocks[i].Html?
    ensures Headings(blocks) == []
    ensures HtmlTexts(blocks) == if credited then [CreditHtml] else []
    ensures (exists i :: 0 <= i < |blocks| && blocks[i].Rule?) <==> credited
  {
    if credited then Credit() else []
  }

  /** The parts main.go draws, one after the other: the title, the contact lines, the sections,
      the optional credit and the photo. */
  function Parts(name: string, contacts: seq<Block>, body: seq<Block>, credited: bool, picture: string,
                 y: real): seq<Block>
  {
    [Title(DocumentTitle(name))] + contacts + body + CreditPart(credited) + DrawImage(picture, y)
  }

  /** The headings the document must show, in order: each section's only when its data is present. */
  function ExpectedHeadings(cv: CV): seq<string>
  {
    (if cv.basics.summary != "" then ["Objective"] else [])
    + (if |cv.skills| > 0 then ["Skills & Interests"] else [])
    + (if |cv.work| > 0 then ["Work"] else [])
    + EducationHeadings(cv.education)
  }

  lemma BodyHeadings(cv: CV, headingY: real)
    ensures Headings(Body(cv, headingY)) == ExpectedHeadings(cv)
  {
    var s := Summary(cv.basics, headingY).blocks;
    var k := SkillsAndInterests(cv);
    var w := WorkSection(cv);
    var e := EducationSection(cv);
    SummaryHeadings(cv.basics, headingY);
    SkillsAndInterestsHeadings(cv);
    WorkContent(cv);
    EducationContent(cv);
    HeadingsAppend(s + k + w, e);
    HeadingsAppend(s + k, w);
    HeadingsAppend(s, k);
    assert Body(cv, headingY) == s + k + w + e;
    calc {
      Headings(Body(cv, headingY));
      Headings(s) + Headings(k) + Headings(w) + Headings(e);
      ExpectedHeadings(cv);
    }
  }

  /** A composed document is its parts, one after the other. */
  lemma Assembly(cv: CV, credited: bool, headingY: real)
    requires cv.basics.location.address != "" ==> cv.basics.location.city != ""
    ensures Compose(cv, credited, headingY).value == Parts(cv.basics.name, Header(cv.basics).value, Body(cv, headingY), credited, cv.basics.picture, ImageY(cv, headingY))
  {
  }

  /** `doc` is assembled like a composed document: a title, contact lines, section blocks, an
      optional credit (rule and markup) and at most one photo. */
  predicate Assembled(doc: seq<Block>, t: seq<Block>, c: seq<Block>, b: seq<Block>, k: seq<Block>, p: seq<Block>)
  {
    && doc == t + c + b + k + p
    && |t| == 1 && t[0].Title?
    && (forall i :: 0 <= i < |c| ==> c[i].Right?)
    && AllInSection(b)
    && (forall i :: 0 <= i < |k| ==> k[i].Rule? || k[i].Html?)
    && |p| <= 1 && (forall i :: 0 <= i < |p| ==> p[i].Photo?)
  }

  /** The parts, drawn one after the other, are assembled like a composed document. */
  lemma PartsAssembled(name: string, contacts: seq<Block>, body: seq<Block>, credited: bool, picture: string, y: real)
    requires forall i :: 0 <= i < |contacts| ==> contacts[i].Right?
    requires AllInSection(body)
    ensures Assembled(Parts(name, contacts, body, credited, picture, y), [Title(DocumentTitle(name))], contacts, body, CreditPart(credited),
                      DrawImage(picture, y))
  {
  }

  /** A composed document is assembled from its title, contacts, sections, credit and photo. */
  lemma ComposedIsAssembled(cv: CV, credited: bool, headingY: real)
    requires cv.basics.location.address != "" ==> cv.basics.location.city != ""
    ensures Assembled(Compose(cv, credited, headingY).value, [Title(DocumentTitle(cv.basics.name))],
                      Header(cv.basics).value, Body(cv, headingY), CreditPart(credited),
                      DrawImage(cv.basics.picture, ImageY(cv, headingY)))
  {
    Assembly(cv, credited, headingY);
    PartsAssembled(cv.basics.name, Header(cv.basics).value, Body(cv, headingY), credited, cv.basics.picture, ImageY(cv, headingY));
  }

  /** In an assembled document the title comes first and is the only one, and the contact lines
      follow it immediately and are the only right-aligned blocks. */
  lemma DocumentHead(doc: seq<Block>, t: seq<Block>, c: seq<Block>, b: seq<Block>, k: seq<Block>, p: seq<Block>)
    requires Assembled(doc, t, c, b, k, p)
    ensures forall i :: 0 <= i < |doc| ==> (doc[i].Title? <==> i == 0)
    ensures forall i :: 0 <= i < |doc| ==> (doc[i].Right? <==> 1 <= i <= |c|)
    ensures doc[1..1 + |c|] == c
  {
    var s := 1 + |c|;
    assert forall i :: 0 <= i < |c| ==> doc[1 + i] == c[i];
    forall i | 0 <= i < |doc|
      ensures doc[i].Title? ==> i == 0
      ensures doc[i].Right? ==> 1 <= i <= |c|
    {
      if s <= i {
        var rest := b + k + p;
        assert doc[i] == rest[i - s];
        if i - s < |b| {
          assert rest[i - s] == b[i - s];
        } else if i - s < |b| + |k| {
          assert rest[i - s] == k[i - s - |b|];
        } else {
          assert rest[i - s] == p[i - s - |b| - |k|];
        }
      }
    }
    assert doc[1..1 + |c|] == c;
  }

  /** In an assembled document a rule exists exactly when the credit holds one, and it follows
      every heading and row. */
  lemma DocumentRule(doc: seq<Block>, t: seq<Block>, c: seq<Block>, b: seq<Block>, k: seq<Block>, p: seq<Block>)
    requires Assembled(doc, t, c, b, k, p)
    ensures forall i, j :: 0 <= i < |doc| && 0 <= j < |doc| && doc[i].Rule? && (doc[j].Heading? || doc[j].Row?) ==> j < i
    ensures (exists i :: 0 <= i < |doc| && doc[i].Rule?) <==> (exists i :: 0 <= i < |k| && k[i].Rule?)
  {
    var s := |t| + |c|;
    var e := s + |b|;
    forall i | 0 <= i < |doc|
      ensures doc[i].Rule? ==> e <= i < e + |k|
      ensures doc[i].Heading? || doc[i].Row? ==> s <= i < e
    {
      if i < s {
        if i > 0 { assert doc[i] == c[i - 1]; }
      } else if i < e {
        assert doc[i] == b[i - s];
      } else if i < e + |k| {
        assert doc[i] == k[i - e];
      } else {
        assert doc[i] == p[i - e - |k|];
      }
    }
    assert forall i :: 0 <= i < |k| ==> doc[e + i] == k[i];
    if exists i :: 0 <= i < |k| && k[i].Rule? {
      var i :| 0 <= i < |k| && k[i].Rule?;
      assert doc[e + i].Rule?;
    }
  }

  /** In an assembled document a photo can only be the last block, and it is the photo part. */
  lemma DocumentPhoto(doc: seq<Block>, t: seq<Block>, c: seq<Block>, b: seq<Block>, k: seq<Block>, p: seq<Block>)
    requires Assembled(doc, t, c, b, k, p)
    ensures forall i :: 0 <= i < |doc| && doc[i].Photo? ==> i == |doc| - 1
    ensures |p| == 1 ==> doc[|doc| - 1] == p[0]
    ensures |p| == 0 ==> !doc[|doc| - 1].Photo?
  {
    var e := |t| + |c| + |b|;
    forall i | 0 <= i < e + |k|
      ensures !doc[i].Photo?
    {
      if i < |t| + |c| {
        if i > 0 { assert doc[i] == c[i - 1]; }
      } else if i < e {
        assert doc[i] == b[i - |t| - |c|];
      } else {
        assert doc[i] == k[i - e];
      }
    }
    if |p| == 1 {
      assert doc[|doc| - 1] == p[0];
    }
  }

  /** The headings of a document assembled like a composed one are those of its sections. */
  lemma HeadingsOfParts(doc: seq<Block>, t: seq<Block>, c: seq<Block>, b: seq<Block>, k: seq<Block>, p: seq<Block>)
    requires doc == t + c + b + k + p
    requires forall i :: 0 <= i < |t| ==> t[i].Title?
    requires forall i :: 0 <= i < |c| ==> c[i].Right?
    requires Headings(k) == []
    requires forall i :: 0 <= i < |p| ==> p[i].Photo?
    ensures Headings(doc) == Headings(b)
  {
    var head := t + c;
    assert forall i :: 0 <= i < |head| ==> !head[i].Heading? by {
      forall i | 0 <= i < |head| ensures !head[i].Heading? {
        if i < |t| { assert head[i] == t[i]; } else { assert head[i] == c[i - |t|]; }
      }
    }
    NoHeadings(head);
    NoHeadings(p);
    HeadingsAppend(head + b + k, p);
    assert Headings(doc) == Headings(head + b + k);
    HeadingsAppend(head + b, k);
    HeadingsAppend(head, b);
    assert Headings(head + b) == Headings(b);
  }

  /** The markup of a document assembled like a composed one is that of its sections, then that of
      its credit. */
  lemma MarkupOfParts(doc: seq<Block>, t: seq<Block>, c: seq<Block>, b: seq<Block>, k: seq<Block>, p: seq<Block>)
    requires doc == t + c + b + k + p
    requires forall i :: 0 <= i < |t| ==> t[i].Title?
    requires forall i :: 0 <= i < |c| ==> c[i].Right?
    requires forall i :: 0 <= i < |p| ==> p[i].Photo?
    ensures HtmlTexts(doc) == HtmlTexts(b) + HtmlTexts(k)
  {
    var head := t + c;
    assert forall i :: 0 <= i < |head| ==> !head[i].Html? by {
      forall i | 0 <= i < |head| ensures !head[i].Html? {
        if i < |t| { assert head[i] == t[i]; } else { assert head[i] == c[i - |t|]; }
      }
    }
    NoHtml(head);
    NoHtml(p);
    HtmlTextsAppend(head + b + k, p);
    assert HtmlTexts(doc) == HtmlTexts(head + b + k);
    HtmlTextsAppend(head + b, k);
    HtmlTextsAppend(head, b);
    assert HtmlTexts(head + b) == HtmlTexts(b);
  }

  /** The parts' title comes first and is the only one; the contact lines follow it and are the
      only right-aligned blocks. */
  lemma PartsHead(name: string, contacts: seq<Block>, body: seq<Block>, credited: bool, picture: string, y: real)
    requires forall i :: 0 <= i < |contacts| ==> contacts[i].Right?
    requires AllInSection(body)
    ensures var doc := Parts(name, contacts, body, credited, picture, y);
            && (forall i :: 0 <= i < |doc| ==> (doc[i].Title? <==> i == 0))
            && doc[1..1 + |contacts|] == contacts
            && (forall i :: 0 <= i < |doc| ==> (doc[i].Right? <==> 1 <= i <= |contacts|))
  {
    PartsAssembled(name, contacts, body, credited, picture, y);
    DocumentHead(Parts(name, contacts, body, credited, picture, y), [Title(DocumentTitle(name))], contacts, body, CreditPart(credited),
                 DrawImage(picture, y));
  }

  /** The parts hold a rule exactly when the credit is asked for, after every heading and row. */
  lemma PartsRule(name: string, contacts: seq<Block>, body: seq<Block>, credited: bool, picture: string, y: real)
    requires forall i :: 0 <= i < |contacts| ==> contacts[i].Right?
    requires AllInSection(body)
    ensures var doc := Parts(name, contacts, body, credited, picture, y);
            && ((exists i :: 0 <= i < |doc| && doc[i].Rule?) <==> credited)
            && (forall i, j :: 0 <= i < |doc| && 0 <= j < |doc| && doc[i].Rule? && (doc[j].Heading? || doc[j].Row?) ==> j < i)
  {
    PartsAssembled(name, contacts, body, credited, picture, y);
    DocumentRule(Parts(name, contacts, body, credited, picture, y), [Title(DocumentTitle(name))], contacts, body, CreditPart(credited),
                 DrawImage(picture, y));
  }

  /** In the parts a photo can only be the last block; the last block is the photo exactly when a
      picture is named, and it is placed at `y`. */
  lemma PartsPhoto(name: string, contacts: seq<Block>, body: seq<Block>, credited: bool, picture: string, y: real)
    requires forall i :: 0 <= i < |contacts| ==> contacts[i].Right?
    requires AllInSection(body)
    ensures var doc := Parts(name, contacts, body, credited, picture, y);
            && (forall i :: 0 <= i < |doc| && doc[i].Photo? ==> i == |doc| - 1)
            && (doc[|doc| - 1].Photo? <==> picture != "")
            && (picture != "" ==> doc[|doc| - 1] == Photo(picture, y))
  {
    var p := DrawImage(picture, y);
    PartsAssembled(name, contacts, body, credited, picture, y);
    DocumentPhoto(Parts(name, contacts, body, credited, picture, y), [Title(DocumentTitle(name))], contacts, body, CreditPart(credited), p);
    assert |p| == 1 <==> picture != "";
  }

  /** The headings of the parts are those of the sections. */
  lemma PartsHeadings(name: string, contacts: seq<Block>, body: seq<Block>, credited: bool, picture: string, y: real)
    requires forall i :: 0 <= i < |contacts| ==> contacts[i].Right?
    requires AllInSection(body)
    ensures Headings(Parts(name, contacts, body, credited, picture, y)) == Headings(body)
  {
    HeadingsOfParts(Parts(name, contacts, body, credited, picture, y), [Title(DocumentTitle(name))], contacts, body, CreditPart(credited),
                    DrawImage(picture, y));
  }

  /** The markup of the parts is that of the sections, then the credit line when asked for. */
  lemma PartsMarkup(name: string, contacts: seq<Block>, body: seq<Block>, credited: bool, picture: string, y: real)
    requires forall i :: 0 <= i < |contacts| ==> contacts[i].Right?
    requires AllInSection(body)
    ensures HtmlTexts(Parts(name, contacts, body, credited, picture, y)) == HtmlTexts(body) + (if credited then [CreditHtml] else [])
  {
    MarkupOfParts(Parts(name, contacts, body, credited, picture, y), [Title(DocumentTitle(name))], contacts, body, CreditPart(credited),
                  DrawImage(picture, y));
  }

  /** The headings of a composed document are exactly those of the non-empty sections, in the
      order Objective, Skills & Interests, Work, Education, Courses. */
  lemma SectionOrder(cv: CV, credited: bool, headingY: real)
    requires cv.basics.location.address != "" ==> cv.basics.location.city != ""
    ensures Headings(Compose(cv, credited, headingY).value) == ExpectedHeadings(cv)
  {
    Assembly(cv, credited, headingY);
    PartsHeadings(cv.basics.name, Header(cv.basics).value, Body(cv, headingY), credited, cv.basics.picture, ImageY(cv, headingY));
    BodyHeadings(cv, headingY);
  }

  /** The title is the first block and the only one; the contact lines of the header follow it
      immediately, before every section, and no other line is right-aligned. */
  lemma TitleThenContacts(cv: CV, credited: bool, headingY: real)
    requires cv.basics.location.address != "" ==> cv.basics.location.city != ""
    ensures var doc := Compose(cv, credited, headingY).value;
            var c := Header(cv.basics).value;
            && (forall i :: 0 <= i < |doc| ==> (doc[i].Title? <==> i == 0))
            && doc[1..1 + |c|] == c
            && (forall i :: 0 <= i < |doc| ==> (doc[i].Right? <==> 1 <= i <= |c|))
  {
    Assembly(cv, credited, headingY);
    PartsHead(cv.basics.name, Header(cv.basics).value, Body(cv, headingY), credited, cv.basics.picture, ImageY(cv, headingY));
  }

  /** The credit is drawn exactly when it is asked for, after every heading and row. */
  lemma CreditLast(cv: CV, credited: bool, headingY: real)
    requires cv.basics.location.address != "" ==> cv.basics.location.city != ""
    ensures var doc := Compose(cv, credited, headingY).value;
            && ((exists i :: 0 <= i < |doc| && doc[i].Rule?) <==> credited)
            && (forall i, j :: 0 <= i < |doc| && 0 <= j < |doc| && doc[i].Rule? && (doc[j].Heading? || doc[j].Row?) ==> j < i)
  {
    Assembly(cv, credited, headingY);
    PartsRule(cv.basics.name, Header(cv.basics).value, Body(cv, headingY), credited, cv.basics.picture, ImageY(cv, headingY));
  }

  /** The markup of a composed document: every course, then the credit line when asked for. */
  lemma CreditMarkup(cv: CV, credited: bool, headingY: real)
    requires cv.basics.location.address != "" ==> cv.basics.location.city != ""
    ensures HtmlTexts(Compose(cv, credited, headingY).value) ==
              AllCourses(cv.education) + (if credited then [CreditHtml] else [])
  {
    Assembly(cv, credited, headingY);
    PartsMarkup(cv.basics.name, Header(cv.basics).value, Body(cv, headingY), credited, cv.basics.picture, ImageY(cv, headingY));
    BodyMarkup(cv, headingY);
  }

  /** The markup of the sections is the list of all courses. */
  lemma BodyMarkup(cv: CV, headingY: real)
    ensures HtmlTexts(Body(cv, headingY)) == AllCourses(cv.education)
  {
    var s := Summary(cv.basics, headingY).blocks;
    var sk := SkillsAndInterests(cv);
    var w := WorkSection(cv);
    var e := EducationSection(cv);
    SummaryHeadings(cv.basics, headingY);
    SkillsAndInterestsHeadings(cv);
    WorkContent(cv);
    EducationContent(cv);
    HtmlTextsAppend(s + sk + w, e);
    HtmlTextsAppend(s + sk, w);
    HtmlTextsAppend(s, sk);
    assert Body(cv, headingY) == s + sk + w + e;
  }

  /** The photo, when there is one, is the last block, at the height `writeSummary` returned; there
      is no photo block otherwise. */
  lemma PhotoLast(cv: CV, credited: bool, headingY: real)
    requires cv.basics.location.address != "" ==> cv.basics.location.city != ""
    ensures var doc := Compose(cv, credited, headingY).value;
            && (forall i :: 0 <= i < |doc| && doc[i].Photo? ==> i == |doc| - 1)
            && (doc[|doc| - 1].Photo? <==> cv.basics.picture != "")
            && (cv.basics.picture != "" ==>
                  doc[|doc| - 1] == Photo(cv.basics.picture, if cv.basics.summary == "" then -100.0 else headingY))
  {
    Assembly(cv, credited, headingY);
    PartsPhoto(cv.basics.name, Header(cv.basics).value, Body(cv, headingY), credited, cv.basics.picture, ImageY(cv, headingY));
  }
}
