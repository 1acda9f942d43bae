# palette-sage, modelled in Dafny

palette-sage is a small web front end: the user types a theme or mood, a
generative model is asked for a palette of 5–6 colors (hex code, name,
description), and the colors are shown as cards whose hex label is printed
in black or white depending on the background. This project models the
three pieces of logic in it and proves properties about them.

- **Contrast chooser** (`contrast.dfy`, module `Contrast`): `getContrastColor`,
  including JavaScript's `parseInt(slice, 16)` on each two-character channel
  slice (leading whitespace, optional sign, optional `0x`/`0X`, longest run of
  hex digits, NaN when no digit is read). NaN is `None`. The test
  `(299r + 587g + 114b) / 1000 >= 128` (the BT.601 luma weights) is stated in
  integers as `299r + 587g + 114b >= 128000`. For integer channels the two
  agree exactly in double precision, and any NaN makes the test false.
- **Response validator** (`palette_service.dfy`, module `PaletteService`): what
  `generatePalette` does with the model's answer. It trims the text, rejects an
  empty result, parses the JSON and requires an array whose every element has
  truthy `hex`, `name` and `description`. Every failure becomes the one message
  "Failed to generate color palette. …". `Array.prototype.some` is modelled
  with its early exit and its exception propagation. That matters because
  reading a property of a `null` element throws, and the throw is caught like
  every other failure. The API call and `JSON.parse` are function parameters.
- **Request state** (`app.dfy`, module `App`): class `PaletteApp` has the four
  state fields `theme`, `palette`, `isLoading` and `error`, plus the handlers and
  render guards. `handleGeneratePalette` is split at its `await`.
  `StartGeneration` is the part before it. `Settle`, `SettleOk` and `SettleErr`
  are the continuation once the request resolves or rejects.
- Shared JavaScript string primitives (`js_string.dfy`, module `JsString`):
  the whitespace set skipped by `trim` and `parseInt`, trimming, and
  `substring` with its clamping and swapping of bounds. `wrappers.dfy` holds
  `Option` and `Result`.

Two behaviours of the code are worth stating. First, the submit check
`if (!currentTheme)` refuses only the empty string. A whitespace-only theme is
not trimmed, and it does start a request (`App.PaletteApp.StartGeneration`).
Second, palette and error are not mutually exclusive. After a palette has
been shown, clearing the input and submitting sets the empty-theme error and
keeps the old palette, so both are shown (`App.ClearedResubmitShowsBoth`).
A run of the handler that starts a request (a non-empty theme) and that no
other run overlaps ends with exactly one of them (`App.PaletteApp.Settle`,
`App.PaletteApp.HandleGeneratePalette`). Two
runs can overlap only if the handlers are called while their controls are
disabled or hidden. The input and button are disabled while loading, and the
example list is not rendered then. If that happens, one run can leave a
palette and the other an error (`App.OverlappingRequestsShowBoth`).

## Model

| member | source | states |
|---|---|---|
| `JsString.TrimStart` | services/geminiService.ts:44 | the result is the input with leading characters dropped, each of them whitespace; the result does not start with whitespace and is no longer than the input |
| `JsString.TrimStartSkipsWhitespace` | components/ColorCard.tsx:12-14 | whitespace put in front of a string does not change where TrimStart ends |
| `JsString.TrimEnd` | services/geminiService.ts:44 | the result is a prefix of the input; everything dropped is whitespace; the result does not end with whitespace |
| `JsString.Trim` | services/geminiService.ts:44 | the trimmed text neither starts nor ends with whitespace and is no longer than the input |
| `JsString.TrimOfPadded` | services/geminiService.ts:44 | whitespace before and after a text without edge whitespace is exactly what `trim` removes |
| `JsString.TrimStartAllWhitespace` | services/geminiService.ts:44-45 | dropping leading whitespace leaves only whitespace exactly when the input was only whitespace |
| `JsString.TrimEmptyIffAllWhitespace` | services/geminiService.ts:44-45 | `trim` gives the empty string exactly when every character is whitespace (both directions) |
| `JsString.TrimIdempotent` | services/geminiService.ts:44 | trimming twice is trimming once |
| `JsString.Substring` | components/ColorCard.tsx:11-14 | `substring` clamps each bound into 0..length on its own and swaps reversed bounds: the plain slice for in-range bounds, the swapped slice for reversed ones, the rest of the string when one bound is past the end, its start when one bound is at or below 0, all of it when the bounds cover it, and empty when both are past the end or both at or before 0 |
| `JsString.SubstringOfExtended` | components/ColorCard.tsx:11-14 | characters past both bounds never influence a substring |
| `Contrast.DigitValue` | components/ColorCard.tsx:12-14 | a hex digit of either case denotes a value below 16 |
| `Contrast.DigitChar` | components/ColorCard.tsx:12-14 | every value below 16 has an upper-case digit that denotes it (inverse of DigitValue) |
| `Contrast.HexRunLength` | components/ColorCard.tsx:12-14 | the run of digits `parseInt` reads is the longest one: all digits, and the next character (if any) is not a digit |
| `Contrast.HexValue` | components/ColorCard.tsx:12-14 | n hex digits denote a value below 16^n |
| `Contrast.ParseDigits` | components/ColorCard.tsx:12-14 | a non-empty string of hex digits parses to the number it denotes |
| `Contrast.TrimStartKeepsNoHexDigit` | components/ColorCard.tsx:12-14 | skipping leading whitespace introduces no hex digit |
| `Contrast.DigitlessIsNaN` | components/ColorCard.tsx:12-14 | a string with no hex digit parses to NaN |
| `Contrast.ParseSkipsWhitespace` | components/ColorCard.tsx:12-14 | `parseInt` skips leading whitespace: prepending whitespace never changes the result |
| `Contrast.ParseSign` | components/ColorCard.tsx:12-14 | one sign is read: `+` keeps the value and `-` negates it (NaN stays NaN), when the rest starts with neither whitespace nor a sign |
| `Contrast.ParsePrefixed` | components/ColorCard.tsx:12-14 | after `0x` or `0X` the longest run of hex digits is read, and an empty run is NaN |
| `Contrast.ParseLeadingRun` | components/ColorCard.tsx:12-14 | without a prefix the longest leading run of hex digits is read, except that a lone `0` followed by `x` or `X` is the prefix |
| `Contrast.ParseNaNUnsigned` | components/ColorCard.tsx:12-14 | text that starts with no digit, whitespace or sign reads as NaN, alone and after `0x`/`0X` |
| `Contrast.ParseNaN` | components/ColorCard.tsx:12-14 | whatever whitespace, single sign and `0x`/`0X` prefix come first, no hex digit right after them gives NaN; a sign followed by whitespace or a second sign is NaN too, because only one sign is read and no whitespace after it |
| `Contrast.SignThenSpaceIsNaN` | components/ColorCard.tsx:12-14 | `parseInt("- 5", 16)` is NaN |
| `Contrast.DoubleSignIsNaN` | components/ColorCard.tsx:12-14 | `parseInt("+-5", 16)` is NaN |
| `Contrast.ParseSignedNoDigit` | components/ColorCard.tsx:12-14 | after one sign, with or without `0x`/`0X`, a character that is no hex digit (another sign and whitespace included) gives NaN |
| `Contrast.NaNWithPrefix` | components/ColorCard.tsx:12-14 | whitespace, an optional sign and an optional prefix followed by no hex digit give NaN, provided that without sign and prefix what follows is not itself whitespace or a sign |
| `Contrast.ChannelRange` | components/ColorCard.tsx:12-14 | a two-character slice parses to a value in -15..255 (a sign leaves room for one digit) |
| `Contrast.ChannelSlice` | components/ColorCard.tsx:11-14 | channel k reads at most two characters: those at positions 2k+1 and 2k+2 when both exist, only the one at 2k+1 when the input ends there, and none when the input is shorter |
| `Contrast.ChannelOfDigits` | components/ColorCard.tsx:11-14 | two hex digits at a channel's positions give that channel the byte they denote |
| `Contrast.ParseInt16` | components/ColorCard.tsx:12-14 | only a leading `-` (after whitespace) makes the value negative; its value on every input is fixed by `ParseSkipsWhitespace`, `ParseSign`, `ParseSignedNoDigit`, `ParsePrefixed`, `ParseLeadingRun` and `ParseNaNUnsigned` taken together (whitespace, then one sign or none, then a prefix, a digit or anything else) |
| `Contrast.GetContrastColor` | components/ColorCard.tsx:9-17 | the result is always `text-black` or `text-white`; input not starting with `#` gives `text-black`; otherwise black exactly when `LumaAtLeast128` holds, the `yiq >= 128` test of lines 15-16 in integers, which any NaN channel fails |
| `Contrast.SixDigitContrast` | components/ColorCard.tsx:11-16 | for `#RRGGBB` with six hex digits, the text is black iff 299R+587G+114B >= 128000, otherwise white |
| `Contrast.RgbHexContrast` | components/ColorCard.tsx:12-16 | the same rule for a color written from three channel values below 256 |
| `Contrast.ContrastMonotone` | components/ColorCard.tsx:15-16 | raising any channels never turns black text into white text |
| `Contrast.WhiteBackgroundGetsBlackText` | components/ColorCard.tsx:15-16 | `#FFFFFF` gives `text-black` |
| `Contrast.BlackBackgroundGetsWhiteText` | components/ColorCard.tsx:15-16 | `#000000` gives `text-white` |
| `Contrast.MidGrayTieGetsBlackText` | components/ColorCard.tsx:15-16 | `#808080` sits exactly on 128 and the tie gives `text-black` |
| `Contrast.DigitlessChannelGivesWhite` | components/ColorCard.tsx:11-16 | a `#` input whose red, green or blue slice holds no hex digit gives `text-white` |
| `Contrast.NaNChannelGivesWhite` | components/ColorCard.tsx:11-16 | a `#` input with any channel that `parseInt` reads as NaN gives `text-white`, since NaN fails the comparison; `ParseNaN` says which slices those are |
| `Contrast.PrefixOnlyChannelGivesWhite` | components/ColorCard.tsx:11-16 | `#0x0000` gives `text-white`: its red slice is the bare prefix `0x` |
| `Contrast.LetterFirstChannelGivesWhite` | components/ColorCard.tsx:11-16 | `#x5FFFF` gives `text-white`: its red slice `x5` starts with no digit |
| `Contrast.ShortHexGivesWhite` | components/ColorCard.tsx:11-16 | `#` followed by at most four characters leaves the blue slice empty and gives `text-white` |
| `Contrast.ShorthandWhiteGetsWhiteText` | components/ColorCard.tsx:11-16 | the shorthand `#FFF` gives `text-white` |
| `Contrast.ContrastIgnoresTail` | components/ColorCard.tsx:11-14 | anything after position 6 has no influence on the result |
| `Contrast.ParseUpToCase` | components/ColorCard.tsx:12-14 | `parseInt(_, 16)` gives the same result for inputs that differ only in the case of ASCII letters |
| `Contrast.ContrastCaseInsensitive` | components/ColorCard.tsx:12-14 | inputs that differ only in the case of ASCII letters get the same text color |
| `Contrast.LowerAndUpperCaseAgree` | components/ColorCard.tsx:12-14 | `#abcdef` and `#ABCDEF` get the same text color |
| `PaletteService.IsMalformed` | services/geminiService.ts:52 | the `.some` callback throws exactly on a null element, and returns false exactly on an object with truthy `hex`, `name` and `description` |
| `PaletteService.ArraySome` | services/geminiService.ts:52 | `some` is false iff the callback is false on every element; true only when some element's callback is true; a throw always comes from some element |
| `PaletteService.ValidateResponse` | services/geminiService.ts:44-56 | the checks succeed iff the text is defined, non-empty after trim, parses to an array, and every element is a color entry; on success the result is that parsed array |
| `PaletteService.Prompt` | services/geminiService.ts:12 | the prompt is the fixed prefix, then the theme verbatim between double quotes, then the fixed suffix |
| `PaletteService.ThemeOf` | services/geminiService.ts:12 | recovering a theme from a text succeeds only on a prompt built from that theme |
| `PaletteService.PromptRoundTrip` | services/geminiService.ts:12 | the theme can always be recovered from its prompt |
| `PaletteService.PromptInjective` | services/geminiService.ts:12 | different themes give different prompts |
| `PaletteService.GeneratePalette` | services/geminiService.ts:11-61 | every failure carries the one fixed message; success iff the API answered with an acceptable text; on success the result is exactly the parsed array (same length, order, elements) and every element has truthy `hex`, `name`, `description` |
| `PaletteService.BlankResponseFails` | services/geminiService.ts:44-60 | an empty or all-whitespace answer fails with the fixed message |
| `PaletteService.NonArrayFails` | services/geminiService.ts:52-60 | parsed JSON that is not an array fails with the fixed message |
| `PaletteService.BadElementFails` | services/geminiService.ts:52-60 | one null element, or one with a missing or falsy `hex`/`name`/`description`, fails the whole answer with the fixed message |
| `PaletteService.EmptyArrayAccepted` | services/geminiService.ts:44-56 | count and hex format are not checked: `[]` is returned as an empty palette |
| `App.ExampleThemesNonEmpty` | App.tsx:8-15 | there are six example themes and none is empty |
| `App.PaletteApp.constructor` | App.tsx:18-21 | the initial state: empty theme, no palette, not loading, no error |
| `App.PaletteApp.EditTheme` | App.tsx:66 | typing changes the theme and nothing else, so it neither shows nor hides the example list |
| `App.PaletteApp.StartGeneration` | App.tsx:23-31 | the empty theme only sets the "Please enter a theme or mood." error, which is shown; any other theme (whitespace included) clears error and palette and enters loading, which disables input and button (App.tsx:69, 73); either way the example list (App.tsx:95) is hidden afterwards; theme is never changed |
| `App.PaletteApp.SettleOk` | App.tsx:33-41 | resolving sets the palette and ends loading, leaving the example list hidden; after a fresh start the error stays cleared |
| `App.PaletteApp.SettleErr` | App.tsx:36-41 | rejecting with an `Error` shows its own message, rejecting with anything else shows "An unknown error occurred." (App.tsx:37); loading ends, and the example list stays hidden unless the message is empty; after a fresh start the palette stays cleared |
| `App.PaletteApp.Settle` | App.tsx:33-41 | after any settle loading is off; after a fresh start exactly one of palette and error is set; a palette or a non-empty error keeps the example list hidden |
| `App.PaletteApp.Submit` | App.tsx:44-47 | submitting runs the flow on the current input and leaves the example list hidden |
| `App.PaletteApp.ClickExample` | App.tsx:49-52 | clicking puts the example in the input and runs the flow; every example starts loading, and the list is hidden afterwards |
| `App.PaletteApp.HandleGeneratePalette` | App.tsx:23-42 | on the empty theme the run only sets the "Please enter a theme or mood." error and keeps the old palette and loading flag; a run that starts a request (a non-empty theme) and that no other request overlaps ends not loading, with either the returned palette and no error, or no palette and the service's fixed message; since that message is not empty, the example list never comes back |
| `App.ClearedResubmitShowsBoth` | App.tsx:23-35 | after a shown palette, clearing the input and submitting shows the old palette together with the empty-theme error, with nothing loading |
| `App.OverlappingRequestsShowBoth` | App.tsx:23-42 | if the handlers are called while their controls are disabled or hidden, two overlapping runs can leave a palette and an error banner shown together |

## Left out

- The Gemini SDK client, the `generateContent` call and its response schema (services/geminiService.ts:1-8, 14-42) are foreign network code. The call is the parameter `generateContent`, and its outcome is a text (possibly undefined) or a rejection.
- The API key check at module load (services/geminiService.ts:5-7) is startup configuration.
- `JSON.parse` is the parameter `parse`, which returns a JSON value or fails. Its grammar is not modelled. JSON numbers are reals, so rounding to doubles is not modelled; for example, a literal that underflows to 0 would be falsy in JavaScript.
- `console.error` (App.tsx:38, services/geminiService.ts:59) has no effect on state or results.
- `handleCopy`, the clipboard write, the 2000 ms timer and `isCopied` (components/ColorCard.tsx:24-29) are browser I/O and timers.
- JSX, CSS classes other than the two contrast classes, `useMemo`/`useCallback`, and `e.preventDefault()` in `handleSubmit` are rendering mechanics. The render conditions are modelled as predicates.
- Concurrency: overlapping requests appear only as calls to `Settle` in some order. Which response arrives first is up to the caller.
- The `disabled` attributes and the hidden example list are render conditions (`InputDisabled`, `ShowsExamples`). The handler methods do not refuse calls in those states, so `App.OverlappingRequestsShowBoth` calls them in a state the page itself does not offer.
- Strings are sequences of Unicode scalar values. JavaScript indexes UTF-16 code units, so `substring` on characters outside the Basic Multilingual Plane is not modelled.
- TypeScript's `Color[]` is an unchecked type assertion, so `PaletteService.GeneratePalette` returns the parsed JSON elements themselves. A `hex` may be any truthy JSON value.
- Property reads on parsed values look only at an object's own fields. None of the prototypes a parsed JSON value can have (Object, Array, String, Number, Boolean) has a property named `hex`, `name` or `description`.
- `parseInt` returning negative zero for `"-0"` is modelled as 0. This makes no difference to the luma comparison.
- `Contrast.ParseInt16` returns the exact value of any digit run. JavaScript's `parseInt` rounds results of 2^53 and above to a double (`parseInt("FFFFFFFFFFFFFFFFF", 16)` is 2^68); that rounding is not modelled. A channel slice has at most two characters, so it never comes near this.
