/**
 * The application controller: the four pieces of request state, the
 * submit and example-click handlers, and the guards that decide what is
 * rendered. `handleGeneratePalette` is split at its `await`: StartGeneration
 * runs up to it, and Settle (through SettleOk or SettleErr) is what runs once
 * the palette request has resolved or rejected.
 */
module App {
  import opened Wrappers
  import opened PaletteService

  const ExampleThemes: seq<string> := [
    "Modern Office",
    "Calm Beach Sunset",
    "Retro Arcade",
    "Enchanted Forest",
    "Cyberpunk City",
    "Minimalist Zen"
  ]

  const EmptyThemeMessage: string := "Please enter a theme or mood."
  const UnknownErrorMessage: string := "An unknown error occurred."

  /** A value caught by the handler: an `Error` instance, or anything else. */
  datatype Caught = ErrorInstance(message: string) | OtherValue

  /** Every example theme is non-empty, so clicking one always starts a request. */
  lemma ExampleThemesNonEmpty()
    ensures |ExampleThemes| == 6
    ensures forall i :: 0 <= i < |ExampleThemes| ==> ExampleThemes[i] != ""
  {
  }

  class PaletteApp {
    var theme: string
    var palette: Option<seq<Json>>
    var isLoading: bool
    var error: Option<string>

    constructor ()
      ensures theme == "" && palette == None && !isLoading && error == None
    {
      theme := "";
      palette := None;
      isLoading := false;
      error := None;
    }

    /** A request is in flight and nothing of an earlier outcome is left. */
    predicate Loading()
      reads this
    {
      isLoading && error == None && palette == None
    }

    /** The text input and the submit button are disabled. */
    predicate InputDisabled()
      reads this
    {
      isLoading
    }

    predicate ShowsSpinner()
      reads this
    {
      isLoading
    }

    /** `{error && ...}`: an empty message is falsy and shows no banner. */
    predicate ShowsError()
      reads this
    {
      error.Some? && error.value != ""
    }

    /** `{palette && ...}`: any array is truthy, the empty one included. */
    predicate ShowsPalette()
      reads this
    {
      palette.Some?
    }

    /** `{!isLoading && !palette && !error && ...}`: the example list. */
    predicate ShowsExamples()
      reads this
    {
      !isLoading && palette.None? && !ShowsError()
    }

    /** The input's `onChange`. */
    method EditTheme(text: string)
      modifies this
      ensures theme == text
      ensures palette == old(palette) && isLoading == old(isLoading) && error == old(error)
      ensures ShowsExamples() == old(ShowsExamples())
    {
      theme := text;
    }

    /** `handleGeneratePalette` up to its `await`. Only the empty string is
        refused; a whitespace-only theme starts a request. */
    method StartGeneration(currentTheme: string) returns (started: bool)
      modifies this
      ensures started <==> currentTheme != ""
      ensures theme == old(theme)
      ensures !started ==> error == Some(EmptyThemeMessage) && palette == old(palette) && isLoading == old(isLoading)
      ensures started ==> Loading()
      ensures started ==> InputDisabled() && ShowsSpinner() && !ShowsError() && !ShowsPalette()
      ensures !started ==> ShowsError()
      ensures !ShowsExamples()
    {
      if currentTheme == "" {
        error := Some(EmptyThemeMessage);
        return false;
      }
      isLoading := true;
      error := None;
      palette := None;
      started := true;
    }

    /** The request resolved: the palette is set and loading ends (`finally`). */
    method SettleOk(newPalette: seq<Json>)
      modifies this
      ensures palette == Some(newPalette) && !isLoading
      ensures error == old(error) && theme == old(theme)
      ensures !ShowsExamples()
      ensures old(Loading()) ==> error == None && ShowsPalette() && !ShowsError()
    {
      palette := Some(newPalette);
      isLoading := false;
    }

    /** The request rejected: the error's message (or the generic one) is
        shown and loading ends (`finally`). */
    method SettleErr(err: Caught)
      modifies this
      ensures err.ErrorInstance? ==> error == Some(err.message)
      ensures err.OtherValue? ==> error == Some(UnknownErrorMessage)
      ensures !isLoading
      ensures (err.OtherValue? || err.message != "") ==> !ShowsExamples()
      ensures palette == old(palette) && theme == old(theme)
      ensures old(Loading()) ==> palette == None
    {
      error := Some(if err.ErrorInstance? then err.message else UnknownErrorMessage);
      isLoading := false;
    }

    /** The `try`/`catch`/`finally` after the `await`, given how
        `generatePalette` settled; it rejects with an `Error`. */
    method Settle(outcome: Result<seq<Json>, string>)
      modifies this
      ensures !isLoading && theme == old(theme)
      ensures outcome.Success? ==> palette == Some(outcome.value) && error == old(error)
      ensures outcome.Failure? ==> error == Some(outcome.error) && palette == old(palette)
      ensures old(Loading()) ==> (palette.Some? <==> error.None?)
      ensures (outcome.Success? || outcome.error != "") ==> !ShowsExamples()
    {
      match outcome
      case Success(p) => SettleOk(p);
      case Failure(message) => SettleErr(ErrorInstance(message));
    }

    /** The form's `handleSubmit`: generates for the current input. */
    method Submit() returns (started: bool)
      modifies this
      ensures started <==> old(theme) != ""
      ensures theme == old(theme)
      ensures !started ==> error == Some(EmptyThemeMessage) && palette == old(palette) && isLoading == old(isLoading)
      ensures started ==> Loading()
      ensures !ShowsExamples()
    {
      started := StartGeneration(theme);
    }

    /** `handleExampleClick`: puts the example in the input and generates for it. */
    method ClickExample(exampleTheme: string) returns (started: bool)
      modifies this
      ensures theme == exampleTheme
      ensures started <==> exampleTheme != ""
      ensures exampleTheme in ExampleThemes ==> started && Loading()
      ensures !started ==> error == Some(EmptyThemeMessage) && palette == old(palette) && isLoading == old(isLoading)
      ensures started ==> Loading()
      ensures !ShowsExamples()
    {
      theme := exampleTheme;
      started := StartGeneration(exampleTheme);
    }

    /** One whole run of `handleGeneratePalette` with no other request
        overlapping it: afterwards exactly one of palette and error is set,
        a failure shows the service's fixed message, and the example list
        stays hidden because that message is not empty. */
    method HandleGeneratePalette(currentTheme: string, generateContent: string -> ApiOutcome,
                                 parse: string -> Option<Json>) returns (started: bool)
      modifies this
      ensures started <==> currentTheme != ""
      ensures theme == old(theme) && (started ==> !isLoading)
      ensures !started ==> error == Some(EmptyThemeMessage) && palette == old(palette) && isLoading == old(isLoading)
      ensures started ==>
        var outcome := GeneratePalette(currentTheme, generateContent, parse);
        && (outcome.Success? ==> palette == Some(outcome.value) && error == None)
        && (outcome.Failure? ==> palette == None && error == Some(FailureMessage))
      ensures !ShowsExamples()
    {
      started := StartGeneration(currentTheme);
      if started {
        Settle(GeneratePalette(currentTheme, generateContent, parse));
      }
    }
  }

  /** After a palette is shown, clearing the input and submitting again sets
      the empty-theme error and keeps the old palette: both are shown, with
      no request in flight. */
  method ClearedResubmitShowsBoth(newPalette: seq<Json>) returns (app: PaletteApp)
    ensures app.ShowsPalette() && app.ShowsError() && !app.isLoading
    ensures app.palette == Some(newPalette) && app.error == Some(EmptyThemeMessage)
  {
    app := new PaletteApp();
    app.EditTheme("Autumn");
    var first := app.Submit();
    app.SettleOk(newPalette);
    app.EditTheme("");
    var second := app.Submit();
  }

  /** Two requests in flight at once. The page does not offer this: while a
      request is loading the input and the button are disabled and the example
      list is not rendered. If the handlers are nevertheless called in that
      state (a submit, then an example click before the first settles), and
      the second resolves before the first rejects, the page shows the second
      palette together with the first request's error. */
  method OverlappingRequestsShowBoth(newPalette: seq<Json>) returns (app: PaletteApp)
    ensures app.ShowsPalette() && app.ShowsError() && !app.isLoading
  {
    app := new PaletteApp();
    app.EditTheme("Autumn");
    var first := app.Submit();
    var second := app.ClickExample("Retro Arcade");
    app.Settle(Success(newPalette));
    app.Settle(Failure(FailureMessage));
  }
}
