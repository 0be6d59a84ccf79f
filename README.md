# Portfolio UI preferences and project-detail logic, in Dafny

This project models the two pieces of real logic in the portfolio site:

- **The UI preference store** (`src/store/uiStore.js`). It holds the
  display theme, the reduced-motion flag (`reducedFX`), the cursor label
  and the scroll progress. The theme and the flag are persisted in
  `localStorage`. The theme is applied to the document root as the
  `data-theme` attribute and the `dark` class. The model is the class
  `UiStore.UIStore`. Its fields are the store state plus the browser state
  it writes or observes: storage is a `map<string, string>`, the root is a
  `Dom` value, and the two media queries (`prefers-color-scheme: dark`,
  `prefers-reduced-motion: reduce`) are booleans. The pure decisions are
  functions: `ThemeDom` (the DOM rule), `InitialTheme` and
  `InitialReducedFX` (start-up from storage), and `Clamp01` (the progress
  clamp).
- **The project-detail page's helpers** (`src/routes/ProjectDetail.jsx`):
  - choosing the project for the route's slug;
  - `splitParas`, which splits an overview into paragraphs. It is modelled
    on exact models of JavaScript's `trim` and `split(/\n{2,}/g)` in module
    `JsText`;
  - the lightbox gallery's index and open state, as the class
    `ProjectDetail.Gallery`;
  - the input checks of `getYouTubeId` and `getVimeoId`;
  - the video block's option defaults and its choice of player.

The store's class invariant (`UIStore.Valid`) says three things. The
progress is in [0, 1]. `data-theme` always agrees with the theme. For
"system", "light" and "dark" the whole DOM state agrees with the theme and
the current OS preference. An unrecognised theme string is shown as
"system" by `applyThemeDom`. But the colour-scheme listener re-applies the
DOM only when the theme is exactly "system", so for such a string the
`dark` class can fall behind the OS. `UnrecognisedThemeKeepsStaleDark`
exhibits this.

## Model

| member | source | states |
|---|---|---|
| `UiStore.ThemeDom` | src/store/uiStore.js:11-24 | the `dark` class is set exactly when the theme is "dark", or is neither "dark" nor "light" and the OS prefers dark; `data-theme` is the theme for "dark"/"light" and "system" for every other value |
| `UiStore.ThemeDomFollowsSystemOnlyWhenImplicit` | src/store/uiStore.js:14-22 | the DOM state is independent of the OS preference exactly when the theme is "dark" or "light" |
| `UiStore.GetItem` | src/store/uiStore.js:29 | `getItem` returns the stored string exactly when the key is present, and `null` otherwise |
| `UiStore.InitialTheme` | src/store/uiStore.js:28-29 | the start-up theme is never empty: it is the stored "theme" value when present and non-empty, else "system" |
| `UiStore.InitialReducedFX` | src/store/uiStore.js:33-40 | the start-up flag is true for a stored "true", false for any other stored string, and the OS reduced-motion preference when the key is absent |
| `UiStore.BoolString` | src/store/uiStore.js:75 | `String(b)` is "true" or "false", and is "true" exactly for `true` |
| `UiStore.ReducedFXRoundTrip` | src/store/uiStore.js:72-77 | after persisting `String(b)` under "reducedFX", start-up reads back `b`, whatever the OS preference |
| `UiStore.ThemeRoundTrip` | src/store/uiStore.js:65-70 | after persisting theme `t`, start-up reads back `t` when it is non-empty, and always applies the same DOM state as `t` (an empty `t` falls back to "system", which the DOM rule treats alike) |
| `UiStore.Clamp01` | src/store/uiStore.js:81 | the stored progress is in [0, 1], equals `p` when `p` is in range, is 0 below and 1 above |
| `UiStore.Clamp01Idempotent` | src/store/uiStore.js:81 | clamping twice is clamping once |
| `UiStore.Clamp01Monotonic` | src/store/uiStore.js:81 | clamping preserves order |
| `UiStore.UIStore.constructor` | src/store/uiStore.js:26-62 | the store starts with the theme and flag read from storage, no cursor label, progress 0, the theme applied to the DOM, storage untouched |
| `UiStore.UIStore.OnSystemThemeChange` | src/store/uiStore.js:42-53 | a colour-scheme change re-applies the DOM only while the theme is "system"; otherwise the DOM and all store fields are unchanged |
| `UiStore.UIStore.SetTheme` | src/store/uiStore.js:65-70 | when the storage write succeeds: sets the theme, stores it under "theme", applies the DOM rule for it, and re-initialising yields it when non-empty; when `setItem` throws: theme, storage and DOM are unchanged; the other fields are unchanged either way |
| `UiStore.UIStore.ToggleReducedFX` | src/store/uiStore.js:72-77 | when the storage write succeeds: flips the flag and writes `String(next)` under "reducedFX", so re-initialising yields the new flag for any OS preference; when `setItem` throws: flag and storage unchanged; theme, DOM, label and progress unchanged either way |
| `UiStore.UIStore.SetCursorLabel` | src/store/uiStore.js:79 | sets the label and nothing else |
| `UiStore.UIStore.SetScrollProgress` | src/store/uiStore.js:81 | stores the clamped progress, `p` itself when in [0, 1], and nothing else changes |
| `UiStore.UnrecognisedThemeKeepsStaleDark` | src/store/uiStore.js:45-47 | with stored theme "auto", the root shows "system" without `dark`, and still does so after the OS switches to dark |
| `JsText.TrimStart` | src/routes/ProjectDetail.jsx:192 | the leading run of trimmable characters is all white space and is maximal |
| `JsText.TrimEnd` | src/routes/ProjectDetail.jsx:192 | the trailing run of trimmable characters is all white space and is maximal |
| `JsText.TrimmableBoundaries` | src/routes/ProjectDetail.jsx:192 | the white-space set of `trim` holds U+00A0, U+FEFF and U+3000 but not U+200B, U+0085 or a letter |
| `JsText.Trim` | src/routes/ProjectDetail.jsx:192 | `trim` gives the slice of the input between a maximal white-space prefix and a white-space suffix, with no white space at either end, empty exactly when the input is all white space |
| `JsText.TrimOfTrimmed` | src/routes/ProjectDetail.jsx:192 | a string with no white space at either end is its own trim |
| `JsText.TrimIdempotent` | src/routes/ProjectDetail.jsx:192 | trimming twice is trimming once |
| `JsText.FindBlank` | src/routes/ProjectDetail.jsx:191 | finds the leftmost position of two consecutive newlines at or after a start index, or reports none |
| `JsText.RunEnd` | src/routes/ProjectDetail.jsx:191 | the greedy `\n{2,}` match extends over the whole run of newlines |
| `JsText.SplitBlankLines` | src/routes/ProjectDetail.jsx:191 | `split(/\n{2,}/g)` yields at least one piece; no piece holds two consecutive newlines; no piece after the first starts with a newline and none before the last ends with one (the greedy match took them) |
| `JsText.SplitIsIdentityIffNoBlank` | src/routes/ProjectDetail.jsx:191 | the split leaves a text whole exactly when it holds no run of two or more newlines |
| `JsText.SplitJoin` | src/routes/ProjectDetail.jsx:191 | when no run is longer than two newlines, joining the pieces with "\n\n" rebuilds the text |
| `JsText.DropNewlines` | src/routes/ProjectDetail.jsx:191 | removing leading newlines never lengthens a string |
| `JsText.DropNewlinesIsRunEnd` | src/routes/ProjectDetail.jsx:191 | removing the newlines at position `i` lands exactly where the greedy match starting there ends |
| `JsText.CollapseRuns` | src/routes/ProjectDetail.jsx:191 | the reference for the split's loss: each maximal run of two or more newlines becomes one blank line; never lengthens the text |
| `JsText.CollapseRunsKeepsShortRuns` | src/routes/ProjectDetail.jsx:191 | a text whose newline runs are at most two long is left as it is |
| `JsText.CollapsePrefix` | src/routes/ProjectDetail.jsx:191 | collapsing leaves a prefix without a blank line untouched |
| `JsText.SplitJoinCollapses` | src/routes/ProjectDetail.jsx:191 | for every text, joining the pieces with "\n\n" gives the text with each maximal newline run collapsed to one blank line: the split loses only the separators' extra length |
| `ProjectDetail.FindSlug` | src/routes/ProjectDetail.jsx:8 | `find` returns the first index whose slug matches, or none when no slug matches |
| `ProjectDetail.ProjectFor` | src/routes/ProjectDetail.jsx:8 | the chosen project is the first with the route's slug, else the first project; nothing only for an empty list |
| `ProjectDetail.FindsOwnSlug` | src/routes/ProjectDetail.jsx:8 | a project's own slug selects it unless an earlier record shares the slug |
| `ProjectDetail.DropEmpty` | src/routes/ProjectDetail.jsx:193 | `filter(Boolean)` keeps exactly the non-empty strings, each as often as it occurred (the multiset of the input without "") |
| `ProjectDetail.DropEmptyConcat` | src/routes/ProjectDetail.jsx:193 | filtering a concatenation is concatenating the filtered parts, so the kept strings stay in their original order |
| `ProjectDetail.DropEmptyExample` | src/routes/ProjectDetail.jsx:193 | a list without empty strings passes through unchanged, in order |
| `ProjectDetail.TrimAll` | src/routes/ProjectDetail.jsx:192 | `map(trim)` trims each piece, position by position |
| `ProjectDetail.SplitParas` | src/routes/ProjectDetail.jsx:189-194 | every paragraph is non-empty, and a missing or empty overview gives no paragraphs |
| `ProjectDetail.ParagraphsAreClean` | src/routes/ProjectDetail.jsx:189-194 | every paragraph is non-empty, equals its own trim, and holds no two consecutive newlines |
| `ProjectDetail.TrimKeepsNoBlankLine` | src/routes/ProjectDetail.jsx:191-192 | trimming a piece cannot create a blank line |
| `ProjectDetail.NoTextNoParagraphs` | src/routes/ProjectDetail.jsx:189-194 | the default (missing) and the empty overview give no paragraphs |
| `ProjectDetail.SingleParagraph` | src/routes/ProjectDetail.jsx:189-194 | a text without a blank line is one paragraph, its trim, so single newlines are kept |
| `ProjectDetail.SplitExamplePieces` | src/routes/ProjectDetail.jsx:191 | a run of three newlines is a single separator |
| `ProjectDetail.TrimExamplePieces` | src/routes/ProjectDetail.jsx:192 | trim removes a leading space and a trailing newline |
| `ProjectDetail.SplitParasExample` | src/routes/ProjectDetail.jsx:189-194 | " one\ntwo\n\n\nthree\n" gives exactly ["one\ntwo", "three"] |
| `ProjectDetail.JsRem` | src/routes/ProjectDetail.jsx:337-338 | JavaScript `%` agrees with the mathematical remainder for a non-negative dividend |
| `ProjectDetail.NextIndex` | src/routes/ProjectDetail.jsx:338 | `next` maps `i` to `i + 1`, wrapping the last index to 0, and stays in [0, n) |
| `ProjectDetail.PrevIndex` | src/routes/ProjectDetail.jsx:337 | `prev` maps `i` to `i - 1`, wrapping 0 to the last index, and stays in [0, n) |
| `ProjectDetail.PrevUndoesNext` | src/routes/ProjectDetail.jsx:337-338 | `prev` after `next`, and `next` after `prev`, is the identity |
| `ProjectDetail.NextSteps` | src/routes/ProjectDetail.jsx:338 | any number of `next` steps keeps the index in [0, n) |
| `ProjectDetail.NextIndexOfMod` | src/routes/ProjectDetail.jsx:338 | one `next` step on `x mod n` gives `(x + 1) mod n` |
| `ProjectDetail.NextStepsShift` | src/routes/ProjectDetail.jsx:338 | `k` successive `next` steps from `i` land on `(i + k) mod n` |
| `ProjectDetail.FullCycle` | src/routes/ProjectDetail.jsx:338 | `n` successive `next` steps return to the starting image |
| `ProjectDetail.Gallery.constructor` | src/routes/ProjectDetail.jsx:294-296 | a gallery over a non-empty image list starts closed at index 0 |
| `ProjectDetail.Gallery.Show` | src/routes/ProjectDetail.jsx:300-302 | `show(i)` sets the index to `i` and opens the lightbox |
| `ProjectDetail.Gallery.Hide` | src/routes/ProjectDetail.jsx:320-335 | `hide` ends with the lightbox closed and the index kept |
| `ProjectDetail.Gallery.Prev` | src/routes/ProjectDetail.jsx:337 | steps the index back by `PrevIndex`, keeps it valid, leaves `open` alone |
| `ProjectDetail.Gallery.Next` | src/routes/ProjectDetail.jsx:338 | steps the index forward by `NextIndex`, keeps it valid, leaves `open` alone |
| `ProjectDetail.Gallery.OnKey` | src/routes/ProjectDetail.jsx:340-349 | while open, Escape closes, ArrowLeft/ArrowRight step back/forward; other keys, and every key while closed, change nothing |
| `ProjectDetail.Gallery.Current` | src/routes/ProjectDetail.jsx:392-401 | the open lightbox renders `images[idx]`, which always exists |
| `ProjectDetail.BareIdTestExamples` | src/routes/ProjectDetail.jsx:450-471 | `/^[\w-]{11}$/` accepts eleven id characters including `_` and `-`, and rejects ten characters or a URL; `/^\d+$/` accepts digits and rejects the empty string and a letter among digits |
| `ProjectDetail.GetYouTubeId` | src/routes/ProjectDetail.jsx:446-466 | empty or missing input gives ""; exactly eleven `[A-Za-z0-9_-]` characters are returned unchanged; anything else goes to the URL branch |
| `ProjectDetail.GetVimeoId` | src/routes/ProjectDetail.jsx:468-478 | empty or missing input gives ""; a non-empty all-digit string is returned unchanged; anything else goes to the URL branch |
| `ProjectDetail.BareIdsAreFixedPoints` | src/routes/ProjectDetail.jsx:446-471 | a bare id is its own result whatever the URL parser does, so extracting again from it changes nothing |
| `ProjectDetail.PlaybackOf` | src/routes/ProjectDetail.jsx:205-207 | `loop` and `muted` are on unless explicitly `false`; `controls` is on only when explicitly `true` |
| `ProjectDetail.AccentOf` | src/routes/ProjectDetail.jsx:197 | a given accent is kept; a missing one becomes "#818cf8" |
| `ProjectDetail.PlayerOf` | src/routes/ProjectDetail.jsx:200-279 | type "file" gets the file player; "youtube"/"vimeo" get an embed exactly when an id was extracted, carrying that id; otherwise nothing is shown |
| `Wrappers.Option.GetOr` | src/routes/ProjectDetail.jsx:205-207 | `??` and default parameters on a value that is present or `undefined`: the value when present, else the default |

## Left out

- Every `None` of the project-detail model is `undefined` (a missing field or argument). A JSON `null` is not modelled: with `accent: null` the source keeps `null` as the accent (a default parameter applies only to `undefined`), and `splitParas(null)` throws, while the model would treat both as missing.
- `localStorage.getItem` throwing at store creation (storage disabled by the browser) is not modelled: the store would fail to be created. A throwing `setItem` is modelled, as the `storageAccepts` parameter of `SetTheme` and `ToggleReducedFX`.
- The branches for a page without `window`, `document` or `localStorage` (server-side rendering) are not modelled: the model assumes a browser. In particular, without `localStorage` the stored flag reads as `false` rather than `null` (src/store/uiStore.js:38-40), so the OS reduced-motion preference would be ignored there.
- Zustand's `create`/`set`/`get`/subscription machinery, and the registration of the colour-scheme listener with its `addListener` fallback, are not modelled. The listener is the method `OnSystemThemeChange`, assumed to run on every change of the OS preference.
- Only the `dark` class of the root element is modelled. Its other classes are untouched by the source and are left out.
- UiStore.UIStore.SetScrollProgress: JavaScript numbers are modelled as reals, so NaN and the infinities are not covered (`Math.min(1, NaN)` is NaN).
- ProjectDetail.Gallery.Hide: the fade-out animations are not modelled. The delay before `setOpen(false)` runs on completion is collapsed into one step. In the source, keys keep working for the 200 ms of the fade.
- All anime.js animations, `requestAnimationFrame` in `show`, and the keydown listener's attach/detach bookkeeping are not modelled. `OnKey` models the listener's effect while open and its absence while closed.
- The `new URL(...)` branches of `getYouTubeId` and `getVimeoId` depend on the WHATWG URL parser. Each is a function parameter (`fromUrl`) standing for whatever that branch returns.
- The embed URL strings built from the ids, and all JSX markup and styling, are not modelled.
- src/data/projects.json is not part of this model: the project list is a parameter. For an empty list the source's `data[0]` is `undefined`, and rendering would fail. `ProjectFor` returns `None` there.
- JavaScript strings are UTF-16 code units; the model uses Dafny characters (Unicode scalar values). Every character `trim` removes is in the Basic Multilingual Plane, so the two agree on well-formed text.
- The scroll-progress smoother (src/lib/animeScroll.js) is not modelled: it is floating-point `Math.pow` driven by `requestAnimationFrame`, and neither the store nor the project-detail page calls it. The header's progress bar is not modelled either: it reads a `docProgress` field the store never defines. The other page and animation components are not modelled.
