/** The slice of the gofpdf canvas the renderer drives: page geometry and the draw calls it issues. */
module Canvas {

  /** Page width and the horizontal margins, in document units. */
  datatype Page = Page(width: real, marginLeft: real, marginRight: real)

  /** `getContentWidth`: the width between the two margins, always recomputed from the page. */
  function ContentWidth(page: Page): (w: real)
    ensures page.marginLeft + w + page.marginRight == page.width
  {
    page.width - page.marginLeft - page.marginRight
  }

  /** The font of a cell; the family is always Arial. Style is "", "B", "I" or "U". */
  datatype Font = Font(style: string, size: nat)

  /** One call on the canvas.
      Cell:    `CellFormat` (its height, a multiple of the line height, is not modelled);
               `newLine` is true when the cursor moves to the next line after the cell.
      Write:   `Write`, flowing text whose line height is `lines` times the font's line height.
      Markup:  `HTMLBasic.Write` of simple markup, line height as for Write.
      TopRule: the text-less cell whose only border is its top edge.
      Image:   `ImageOptions` placing the file at height `y`, flush with the right page edge. */
  datatype Op =
    | Cell(font: Font, width: real, text: string, border: string, newLine: bool, align: string, link: string)
    | Write(lines: real, text: string)
    | Markup(lines: real, html: string)
    | TopRule(width: real)
    | Image(path: string, y: real)
}
