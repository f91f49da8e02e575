/** The command line of main.go: usage, or the composed résumé drawn on an A4 page with 10 mm margins. */
module Program {
  import opened Results
  import opened CVModel
  import opened Canvas
  import opened Common
  import opened Sections
  import opened Readback
  import opened Composer

  /** What a run of the program does: print the usage, stop on the header error, or draw. */
  datatype Outcome = Usage | Aborted(message: string) | Rendered(ops: seq<Op>)

  /** The margins main.go sets (`SetMargins(10, 10, 10)`), on a page of the given width. */
  function MainPage(pageWidth: real): (page: Page)
    ensures ContentWidth(page) == pageWidth - 20.0
  {
    Page(pageWidth, 10.0, 10.0)
  }

  /** `main`: with `-h` or without a file argument only the usage is printed. Otherwise `loaded`
      is the résumé decoded from the file named by the first argument, `credited` is the `-c` flag,
      and the composition is drawn, unless the header fails, which ends the run with its message. */
  function Execute(help: bool, credited: bool, args: seq<string>, loaded: CV, pageWidth: real, headingY: real): (run: Outcome)
    ensures run.Usage? <==> help || |args| == 0
    ensures run.Aborted? <==>
              !help && |args| > 0 && loaded.basics.location.address != "" && loaded.basics.location.city == ""
    ensures run.Aborted? ==> run.message == "Missing city"
  {
    if help || |args| == 0 then Usage
    else
      match Compose(loaded, credited, headingY)
      case Failure(e) => Aborted(e)
      case Success(blocks) => Rendered(LowerAll(MainPage(pageWidth), blocks))
  }

  /** The canvas calls of a rendering run read back as exactly the composed document. */
  lemma ExecuteDrawsComposition(help: bool, credited: bool, args: seq<string>, loaded: CV, pageWidth: real, headingY: real)
    requires pageWidth != 20.0
    requires Execute(help, credited, args, loaded, pageWidth, headingY).Rendered?
    ensures Compose(loaded, credited, headingY).Success?
    ensures Raise(MainPage(pageWidth), Execute(help, credited, args, loaded, pageWidth, headingY).ops)
            == Some(Compose(loaded, credited, headingY).value)
  {
    RaiseLowerAll(MainPage(pageWidth), Compose(loaded, credited, headingY).value);
  }
}
