/** Reading a stream of canvas calls back into the draw operations that produced it. Every helper of
    common.go leaves a distinct trace, so the lowering loses nothing but the page geometry. */
module Readback {
  import opened Results
  import opened Canvas
  import opened Common

  function Prepend(b: Block, rest: Option<seq<Block>>): Option<seq<Block>>
  {
    match rest
    case None => None
    case Some(bs) => Some([b] + bs)
  }

  /** The blocks whose lowering is `ops`, or None when `ops` is not such a lowering. A cell that
      keeps the line open starts a label/content row; a bottom-bordered cell is a heading and must be
      followed by its half-line space; other cells are contacts (right-aligned), the title (20pt)
      or a plain line. */
  function Raise(page: Page, ops: seq<Op>): (r: Option<seq<Block>>)
    decreases |ops|
  {
    if |ops| == 0 then Some([])
    else
      var w := ContentWidth(page);
      match ops[0]
      case Cell(font, width, text, border, newLine, align, link) =>
        if !newLine then
          if |ops| >= 2 && ops[1].Cell? && ops[1].newLine && w != 0.0 then
            Prepend(Row(text, font.style, ops[1].text, ops[1].font.style, width / w), Raise(page, ops[2..]))
          else None
        else if border == "B" then
          if |ops| >= 2 && ops[1] == Write(0.5, "\n") then Prepend(Heading(text), Raise(page, ops[2..]))
          else None
        else if align == "R" then Prepend(Right(text, link), Raise(page, ops[1..]))
        else if font.size == 20 then Prepend(Title(text), Raise(page, ops[1..]))
        else Prepend(Line(text), Raise(page, ops[1..]))
      case Write(k, t) => Prepend(Text(k, t), Raise(page, ops[1..]))
      case Markup(k, h) => Prepend(Html(k, h), Raise(page, ops[1..]))
      case TopRule(_) => Prepend(Rule, Raise(page, ops[1..]))
      case Image(p, y) => Prepend(Photo(p, y), Raise(page, ops[1..]))
  }

  /** Reading back the calls of one block followed by anything readable yields that block first. */
  lemma RaiseLower(page: Page, b: Block, rest: seq<Op>)
    requires ContentWidth(page) != 0.0
    ensures Raise(page, Lower(page, b) + rest) == Prepend(b, Raise(page, rest))
  {
    var ops := Lower(page, b) + rest;
    var n := |Lower(page, b)|;
    assert ops[n..] == rest;
    if b.Row? {
      var w := ContentWidth(page);
      var cells := WriteLabelWithText(page, b.caption, b.captionStyle, b.content, b.contentStyle, b.ratio);
      assert ops[0] == cells[0] && ops[1] == cells[1];
      assert cells[0].width / w == b.ratio;
      assert ops[2..] == rest;
    }
  }

  /** Lowering is invertible: the canvas calls of any block sequence read back as that sequence. */
  lemma {:induction false} RaiseLowerAll(page: Page, blocks: seq<Block>)
    requires ContentWidth(page) != 0.0
    ensures Raise(page, LowerAll(page, blocks)) == Some(blocks)
    decreases |blocks|
  {
    if |blocks| > 0 {
      RaiseLowerAll(page, blocks[1..]);
      RaiseLower(page, blocks[0], LowerAll(page, blocks[1..]));
      assert [blocks[0]] + blocks[1..] == blocks;
    }
  }
}
