/** The "I love A, B and C." sentence of the skills and interests section. */
module Interests {

  /** The pieces the sentence is assembled from: text, or one of the two joiners. */
  datatype Piece = Word(text: string) | Comma | And

  function PieceText(p: Piece): string
  {
    match p
    case Word(t) => t
    case Comma => ", "
    case And => " and "
  }

  /** The text of a piece sequence. */
  function Render(pieces: seq<Piece>): string
  {
    if |pieces| == 0 then "" else PieceText(pieces[0]) + Render(pieces[1..])
  }

  lemma {:induction false} RenderAppend(a: seq<Piece>, b: seq<Piece>)
    ensures Render(a + b) == Render(a) + Render(b)
    decreases |a|
  {
    if |a| == 0 {
      assert a + b == b;
    } else {
      assert (a + b)[1..] == a[1..] + b;
      RenderAppend(a[1..], b);
    }
  }

  /** The joiner placed before the i-th of `count` names that follow the first: " and " before the
      last one, ", " before every other. */
  function Joiner(i: nat, count: nat): Piece
  {
    if i == count - 1 then And else Comma
  }

  /** The joiners and names from the i-th of the trailing names on. */
  function Joined(rest: seq<string>, i: nat): seq<Piece>
    requires i <= |rest|
    decreases |rest| - i
  {
    if i == |rest| then [] else [Joiner(i, |rest|), Word(rest[i])] + Joined(rest, i + 1)
  }

  /** The pieces of the sentence for a non-empty list of interest names. */
  function LovePieces(names: seq<string>): seq<Piece>
    requires |names| >= 1
  {
    [Word("I love "), Word(names[0])] + Joined(names[1..], 0) + [Word(".")]
  }

  /** The interest sentence the section writes (see `SentenceIsNaturalList` for what it reads). */
  function InterestSentence(names: seq<string>): string
    requires |names| >= 1
  {
    Render(LovePieces(names))
  }

  /** The rendered pieces: "I love ", the first name, the joined trailing names, the full stop. */
  lemma LoveRender(names: seq<string>)
    requires |names| >= 1
    ensures Render(LovePieces(names)) == "I love " + names[0] + Render(Joined(names[1..], 0)) + "."
  {
    var j := Joined(names[1..], 0);
    RenderAppend([Word("I love "), Word(names[0])] + j, [Word(".")]);
    RenderAppend([Word("I love "), Word(names[0])], j);
    assert Render([Word("I love "), Word(names[0])]) == "I love " + names[0];
    assert Render([Word(".")]) == ".";
  }

  /** One step of the joining: the joiner of the i-th trailing name, the name, then the rest. */
  lemma JoinedStep(rest: seq<string>, i: nat)
    requires i < |rest|
    ensures Render(Joined(rest, i)) == PieceText(Joiner(i, |rest|)) + rest[i] + Render(Joined(rest, i + 1))
  {
    RenderAppend([Joiner(i, |rest|), Word(rest[i])], Joined(rest, i + 1));
    assert Render([Word(rest[i])]) == rest[i];
  }

  /** The sentence built as the loop in sections.go builds it: the first name, then for each later
      name its joiner and the name, then the full stop. */
  method BuildInterestSentence(names: seq<string>) returns (s: string)
    requires |names| >= 1
    ensures s == InterestSentence(names)
  {
    var rest := names[1..];
    s := "I love " + names[0];
    var i := 0;
    while i < |rest|
      invariant 0 <= i <= |rest|
      invariant s + Render(Joined(rest, i)) == "I love " + names[0] + Render(Joined(rest, 0))
    {
      var joinText := ", ";
      if i == |rest| - 1 {
        joinText := " and ";
      }
      JoinedStep(rest, i);
      assert joinText == PieceText(Joiner(i, |rest|));
      var next := s + joinText + rest[i];
      assert next + Render(Joined(rest, i + 1)) == s + Render(Joined(rest, i));
      s := next;
      i := i + 1;
    }
    LoveRender(names);
    s := s + ".";
  }

  /** Comma pairs ", x" for each of `xs`, built from the back. */
  function Commas(xs: seq<string>): seq<Piece>
  {
    if |xs| == 0 then [] else Commas(xs[..|xs| - 1]) + [Comma, Word(xs[|xs| - 1])]
  }

  lemma {:induction false} CommasHaveNoAnd(xs: seq<string>)
    ensures And !in Commas(xs)
    decreases |xs|
  {
    if |xs| > 0 {
      CommasHaveNoAnd(xs[..|xs| - 1]);
    }
  }

  /** Every name but the last is preceded by a comma pair, the last by " and ". */
  lemma {:induction false} JoinedSplitsAtLast(rest: seq<string>, i: nat)
    requires |rest| >= 1 && i <= |rest| - 1
    ensures Joined(rest, 0) == Commas(rest[..i]) + Joined(rest, i)
    decreases i
  {
    if i > 0 {
      JoinedSplitsAtLast(rest, i - 1);
      var pair := [Comma, Word(rest[i - 1])];
      assert Joiner(i - 1, |rest|) == Comma;
      assert Joined(rest, i - 1) == pair + Joined(rest, i);
      assert rest[..i][..i - 1] == rest[..i - 1];
      assert Commas(rest[..i]) == Commas(rest[..i - 1]) + pair;
      assert Commas(rest[..i - 1]) + (pair + Joined(rest, i)) == Commas(rest[..i - 1]) + pair + Joined(rest, i);
    }
  }

  /** With two or more interests the pieces are: the names but the last joined by commas, then
      " and " and the last name; with one interest there is no joiner at all. */
  lemma {:induction false} LovePiecesShape(names: seq<string>)
    requires |names| >= 1
    ensures |names| == 1 ==> LovePieces(names) == [Word("I love "), Word(names[0]), Word(".")]
    ensures |names| >= 2 ==>
              LovePieces(names) ==
              [Word("I love "), Word(names[0])] + Commas(names[1..|names| - 1])
              + [And, Word(names[|names| - 1]), Word(".")]
  {
    if |names| >= 2 {
      var rest := names[1..];
      JoinedSplitsAtLast(rest, |rest| - 1);
      assert rest[..|rest| - 1] == names[1..|names| - 1];
    }
  }

  /** With one interest the sentence is "I love A." */
  lemma OneInterest(name: string)
    ensures InterestSentence([name]) == "I love " + name + "."
  {
    SentenceIsNaturalList([name]);
  }

  /** " and " is used exactly once when there are at least two interests and never with one,
      and it sits immediately before the last name, which ends the sentence. */
  lemma {:induction false} AndExactlyBeforeLast(names: seq<string>)
    requires |names| >= 1
    ensures multiset(LovePieces(names))[And] == (if |names| >= 2 then 1 else 0)
    ensures |names| >= 2 ==> var ps := LovePieces(names);
      |ps| >= 4 && ps[|ps| - 3] == And && ps[|ps| - 2] == Word(names[|names| - 1]) && ps[|ps| - 1] == Word(".")
  {
    LovePiecesShape(names);
    if |names| >= 2 {
      CommasHaveNoAnd(names[1..|names| - 1]);
    }
  }

  /** Regrouping a concatenation, kept apart so that it is proved on variables, not on literals. */
  lemma Regroup(a: string, b: string, c: string, d: string)
    ensures a + (b + (c + d)) == a + b + c + d
  {
  }

  /** "A", "A, B", "A, B, C": names joined by ", ". */
  function CommaList(xs: seq<string>): string
    requires |xs| >= 1
  {
    if |xs| == 1 then xs[0] else CommaList(xs[..|xs| - 1]) + ", " + xs[|xs| - 1]
  }

  /** "A", "A and B", "A, B and C": the English list of the names. */
  function NaturalList(xs: seq<string>): string
    requires |xs| >= 1
  {
    if |xs| == 1 then xs[0] else CommaList(xs[..|xs| - 1]) + " and " + xs[|xs| - 1]
  }

  lemma {:induction false} RenderCommas(first: string, xs: seq<string>)
    ensures first + Render(Commas(xs)) == CommaList([first] + xs)
    decreases |xs|
  {
    if |xs| > 0 {
      var init := xs[..|xs| - 1];
      var last := xs[|xs| - 1];
      RenderCommas(first, init);
      RenderAppend(Commas(init), [Comma, Word(last)]);
      assert Render([Comma, Word(last)]) == ", " + last by {
        assert Render([Word(last)]) == last;
      }
      assert ([first] + xs)[..|xs|] == [first] + init;
      assert CommaList([first] + xs) == CommaList([first] + init) + ", " + last;
      Regroup(first, Render(Commas(init)), ", ", last);
    }
  }

  /** The joined trailing names render as the comma pairs of all but the last, then " and " and
      the last. */
  lemma JoinedRendersAsList(names: seq<string>)
    requires |names| >= 2
    ensures Render(Joined(names[1..], 0))
            == Render(Commas(names[1..|names| - 1])) + " and " + names[|names| - 1]
  {
    var rest := names[1..];
    var last := names[|names| - 1];
    JoinedSplitsAtLast(rest, |rest| - 1);
    assert rest[..|rest| - 1] == names[1..|names| - 1];
    var tail := Joined(rest, |rest| - 1);
    assert tail == [And, Word(last)];
    RenderAppend(Commas(names[1..|names| - 1]), tail);
    assert Render(tail) == " and " + last by {
      assert Render([Word(last)]) == last;
    }
  }

  /** The English list of two or more names: the first, the comma pairs of the middle ones, then
      " and " and the last. */
  lemma NaturalListOfSeveral(names: seq<string>)
    requires |names| >= 2
    ensures NaturalList(names)
            == names[0] + Render(Commas(names[1..|names| - 1])) + " and " + names[|names| - 1]
  {
    RenderCommas(names[0], names[1..|names| - 1]);
    assert [names[0]] + names[1..|names| - 1] == names[..|names| - 1];
  }

  /** Moving the first name into the list: the same text, grouped around the list. */
  lemma Reassociate(pre: string, first: string, mid: string, and: string, last: string, stop: string,
                    joined: string, list: string)
    requires joined == mid + and + last
    requires list == first + mid + and + last
    ensures pre + first + joined + stop == pre + list + stop
  {
    assert first + joined == list;
  }

  /** The sentence is "I love " followed by the English list of the interests and a full stop. */
  lemma SentenceIsNaturalList(names: seq<string>)
    requires |names| >= 1
    ensures InterestSentence(names) == "I love " + NaturalList(names) + "."
  {
    LoveRender(names);
    if |names| >= 2 {
      JoinedRendersAsList(names);
      NaturalListOfSeveral(names);
      Reassociate("I love ", names[0], Render(Commas(names[1..|names| - 1])), " and ", names[|names| - 1], ".",
                  Render(Joined(names[1..], 0)), NaturalList(names));
    } else {
      assert names[1..] == [];
    }
  }

  /** Two interests are joined by " and ". */
  lemma TwoInterests(a: string, b: string)
    ensures InterestSentence([a, b]) == "I love " + a + " and " + b + "."
  {
    SentenceIsNaturalList([a, b]);
    assert [a, b][..1] == [a];
    assert NaturalList([a, b]) == a + " and " + b;
  }

  /** With three interests, a comma separates the first two and " and " the last two. */
  lemma ThreeInterests(a: string, b: string, c: string)
    ensures InterestSentence([a, b, c]) == "I love " + a + ", " + b + " and " + c + "."
  {
    SentenceIsNaturalList([a, b, c]);
    assert [a, b, c][..2] == [a, b];
    assert [a, b][..1] == [a];
    assert CommaList([a, b]) == a + ", " + b;
    assert NaturalList([a, b, c]) == a + ", " + b + " and " + c;
  }
}
