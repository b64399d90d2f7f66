# Portfolio site: search overlay, contact form, navigation and skills, in Dafny

A model of the logic in a single-page portfolio site. The site is otherwise
static content. The modelled parts are:

- **Search overlay** (`SearchOverlay`). A search term that trims to nothing
  shows no results. Any other term shows the first 8 hits of the fuzzy
  matcher, in the matcher's order. `highlightMatches` wraps matched text in
  `<mark>` elements. The content preview is the first 150 characters followed
  by `...`. Selecting a result may scroll to the entry's anchor. It always
  flips the search-open flag and clears the term.
- **Search-open flag** (`UseSearchHook`). One boolean, closed at start. It is
  changed by `toggleSearch` and `setSearchOpen`. `useSearch` throws outside a
  provider.
- **Contact form** (`Contact`). A four-field schema, the empty defaults, and
  the submit path. Data reaches the submission client only when the schema
  accepts it. The form resets on success and keeps its fields on failure.
- **Navigation** (`Navigation`). Six fixed links and a mobile-menu flag. The
  menu button flips the flag; every link click closes the menu. The search
  button flips the shared search-open flag.
- **Skills** (`Skills`). Every skill shows five indicators, and indicator `i`
  is filled iff `i < level`. The filled colour is the category colour with its
  first `text-` replaced by `bg-`. Category icons come from a three-entry map.

`JsString` models the ECMAScript string operations the components call.
`indexOf` finds the FIRST occurrence, and `replace` with a string pattern
rewrites that occurrence only, and `replace` expands `$$`, `$&`, `` $` `` and `$'` in the replacement.
`substring` clamps both bounds into range and swaps them when they are
reversed. `trim` removes ECMAScript whitespace and line terminators. `Scroll`
holds the shared 80-pixel header offset.

The outside world enters only as parameters:
- the matcher is a function from a search term to its hits;
- `document.querySelector(...).getBoundingClientRect().top` is a lookup from a
  selector to an optional integer;
- `window.pageYOffset` is an integer;
- the email-shape check is an uninterpreted predicate `isEmail`;
- the submission client's outcome is a `Delivery` value.

`highlightMatches` keeps the source's behaviour: each match's text is cut from
the ORIGINAL text, but it is searched for in the running accumulator. A later
match can therefore land inside mark-up inserted by an earlier one.
`LaterMatchLandsInMarkup` shows this on "ab": the `b` found is the one in the
first mark's `bg-` class.

## Model

| member | source | states |
|---|---|---|
| `JsString.Trim` | components/search-overlay.tsx:23 | `trim()` never lengthens the string, and what it returns neither starts nor ends with whitespace |
| `JsString.TrimEmptyIffBlank` | components/search-overlay.tsx:23 | `term.trim()` is empty exactly when every character of the term is ECMAScript whitespace |
| `JsString.IndexOf` | components/search-overlay.tsx:49-52 | the index `replace` rewrites is an occurrence of the pattern, and no occurrence comes before it; `None` means no occurrence at all |
| `JsString.Replace` | components/search-overlay.tsx:49-52 | `String.prototype.replace` with a string pattern: the first occurrence found by `IndexOf` is replaced by the `$`-expanded replacement; its properties are `ReplaceFirstOccurrence`, `ReplaceAbsent` and `ReplaceVerbatim` |
| `JsString.ReplaceVerbatim` | components/skills-section.tsx:81 | a `$`-free replacement is inserted literally: `replace` equals the literal first-occurrence replacement |
| `JsString.ReplaceFirstOccurrence` | components/search-overlay.tsx:49-52 | `replace` with a `$`-free replacement rewrites only the first occurrence and keeps the text on both sides |
| `JsString.ReplaceAbsent` | components/search-overlay.tsx:49-52 | `replace` returns the string unchanged when the pattern does not occur |
| `JsString.Substitute` | components/search-overlay.tsx:49-52 | GetSubstitution of ECMAScript: `$$`, `$&`, `` $` `` and `$'` are expanded, everything else copied; `SubstituteVerbatim` and `SearchOverlay.SubstituteDoubleDollar` state its behaviour |
| `JsString.SubstituteVerbatim` | components/search-overlay.tsx:49-52 | a replacement without `$` is inserted verbatim |
| `JsString.Substring` | components/search-overlay.tsx:48 | `substring` gives the slice between in-range bounds, swaps reversed bounds, and gives "" when both bounds are past the end |
| `SearchOverlay.SearchResults` | components/search-overlay.tsx:22-29 | at most 8 results, always a prefix of the matcher's hits (order kept); none for a term that trims to nothing; otherwise exactly `min(8, n)` |
| `SearchOverlay.BlankTermShowsNothing` | components/search-overlay.tsx:23-28 | an empty or all-whitespace term yields an empty result list |
| `SearchOverlay.NonBlankTermShowsLeadingHits` | components/search-overlay.tsx:23-25 | a term with a non-whitespace character yields the first `min(8, n)` hits, hit `k` in position `k` |
| `SearchOverlay.MatchText` | components/search-overlay.tsx:48 | the wrapped text is `text[s..e+1]` of the original text for the first span `[s, e]`, end inclusive |
| `SearchOverlay.OnlyFirstSpanUsed` | components/search-overlay.tsx:48 | spans after a match's first one never change the output |
| `SearchOverlay.Step` | components/search-overlay.tsx:48-52 | one pass of the loop; a match whose text does not occur in the accumulator leaves it unchanged |
| `SearchOverlay.HighlightFrom` | components/search-overlay.tsx:46-55 | the loop as a fold over the matches; when no match text occurs in the starting text, the text is returned unchanged |
| `SearchOverlay.Highlight` | components/search-overlay.tsx:43-56 | `highlightMatches`' result: the text itself when the matches are missing or none of their texts occurs in it |
| `SearchOverlay.HighlightMatches` | components/search-overlay.tsx:43-56 | the loop returns the fold of one `replace` per match over the accumulator, and returns the text unchanged when the match list is missing or empty |
| `SearchOverlay.StepRewritesFirstOccurrence` | components/search-overlay.tsx:49-52 | for any match text, a match rewrites only the first occurrence of its text in the accumulator: the text before and after is kept, and the `$`-expanded mark-up goes in between |
| `SearchOverlay.StepWrapsFirstOccurrence` | components/search-overlay.tsx:49-52 | for a `$`-free match text, a match wraps the first occurrence of its text in the current accumulator in `<mark …>…</mark>` and keeps everything else |
| `SearchOverlay.WrappedCount` | components/search-overlay.tsx:46-55 | the number of matches whose text was found when processed is at most the number of matches |
| `SearchOverlay.HighlightFromIsLiteral` | components/search-overlay.tsx:49-52 | when no match text holds `$`, the source's loop and the loop that inserts the mark-up literally give the same output |
| `SearchOverlay.HighlightLength` | components/search-overlay.tsx:46-55 | output length = input length + k × (length of the `<mark>` wrapper), k the number of matches found when processed |
| `SearchOverlay.LaterMatchLandsInMarkup` | components/search-overlay.tsx:47-53 | a later match searches the accumulator and can wrap text inside an earlier match's mark-up |
| `SearchOverlay.DollarPatternInMatchExpanded` | components/search-overlay.tsx:49-52 | a `$$` in the matched text comes out as a single `$` inside the mark |
| `SearchOverlay.SubstituteDoubleDollar` | components/search-overlay.tsx:49-52 | in a replacement string, `$$` between two `$`-free parts stands for a single `$` |
| `SearchOverlay.LiteralKeepsDoubleDollar` | components/search-overlay.tsx:49-52 | inserted literally, the mark around a matched "$$" keeps both dollar signs |
| `SearchOverlay.HighlightFromLiteral` | components/search-overlay.tsx:46-55 | with the mark-up inserted literally, the output grows by exactly one wrapper per match found |
| `SearchOverlay.HighlightLiteral` | components/search-overlay.tsx:43-56 | literal highlighting keeps the text when matches are missing, and its length lies between `|text|` and `|text| + |matches| × wrapper` |
| `JsArray.Filter` | components/search-overlay.tsx:110 | the kept elements all pass the test and come from the input, every input element that passes is kept, and a single element is kept exactly when it passes |
| `JsArray.FilterAppend` | components/search-overlay.tsx:110 | filtering a concatenation concatenates the filtered parts, so `filter` keeps the order and the duplicates of the passing elements |
| `SearchOverlay.MatchesFor` | components/search-overlay.tsx:119 | `matches?.filter(m => m.key === key)`: missing stays missing; otherwise exactly the matches with that key |
| `SearchOverlay.MatchesForAppend` | components/search-overlay.tsx:110 | filtering by key keeps the order and the copies of the matches with that key, which the highlight loop depends on |
| `SearchOverlay.Preview` | components/search-overlay.tsx:118 | the preview is the first 150 characters followed by "..." (the whole content when shorter) |
| `SearchOverlay.RenderTitle` | components/search-overlay.tsx:105-113 | a title with no title matches is rendered unchanged |
| `SearchOverlay.RenderContent` | components/search-overlay.tsx:114-122 | a content field with no content matches is rendered as the plain preview |
| `SearchOverlay.HiddenContentMatchPrependsEmptyMark` | components/search-overlay.tsx:117-120 | a content match past the preview puts an empty `<mark>` in front of the preview |
| `SearchOverlay.RenderContentVisible` | components/search-overlay.tsx:114-122 | the corrected rendering keeps only the spans the preview shows; a hit without matches is rendered as the plain preview |
| `SearchOverlay.VisibleMatchesMarkMatchedText` | components/search-overlay.tsx:117-120 | when only visible spans are kept, each one marks exactly the non-empty text the matcher matched; with none visible the preview is unchanged |
| `SearchOverlay.AnchorScroll` | components/search-overlay.tsx:32-38 | the page scrolls only for a non-empty anchor that matches an element, and then to `top + pageYOffset − 80` |
| `SearchOverlay.Overlay.constructor` | components/search-overlay.tsx:12-13 | the overlay mounts with an empty term and no results |
| `SearchOverlay.Overlay.SetSearchTerm` | components/search-overlay.tsx:22-29 | after typing, the results are the gated matcher output for the new term |
| `SearchOverlay.Overlay.HandleResultClick` | components/search-overlay.tsx:31-41 | selecting a result scrolls as `AnchorScroll` says, always flips the open flag, and clears the term and the results |
| `SearchOverlay.Overlay.Close` | components/search-overlay.tsx:71-78 | the close button flips the open flag |
| `Scroll.ScrollTarget` | components/navigation.tsx:25 | after scrolling to the target, the element sits 80 pixels below the top of the viewport |
| `Scroll.ScrollToSelector` | components/navigation.tsx:23-27 | the page scrolls exactly when the selector matches an element, and then to `top + pageYOffset − 80` |
| `UseSearchHook.Apply` | hooks/use-search.tsx:14-15 | a toggle negates the flag, and `setSearchOpen(b)` sets it to `b` |
| `UseSearchHook.Run` | hooks/use-search.tsx:14-15 | the flag after a sequence of `toggleSearch`/`setSearchOpen` calls, first to last; a final `setSearchOpen(b)` leaves `b` |
| `UseSearchHook.Toggles` | hooks/use-search.tsx:14 | a helper, not a model of the source: the sequence of `n` toggle actions that `TogglesParity` runs |
| `UseSearchHook.RunAppend` | hooks/use-search.tsx:14-15 | running two sequences of actions equals running the first, then the second |
| `UseSearchHook.TogglesParity` | hooks/use-search.tsx:14 | `n` toggles keep the flag when `n` is even and flip it when `n` is odd |
| `UseSearchHook.ToggleTwiceRestores` | hooks/use-search.tsx:14 | two toggles restore the original state |
| `UseSearchHook.SetOpenForgetsHistory` | hooks/use-search.tsx:15 | after `setSearchOpen(b)`, only the later actions matter |
| `UseSearchHook.SetOpenIdempotent` | hooks/use-search.tsx:15 | `setSearchOpen(b)` twice is the same as once, and leaves the flag equal to `b` |
| `UseSearchHook.SearchContext.constructor` | hooks/use-search.tsx:12 | the search-open flag starts false |
| `UseSearchHook.SearchContext.ToggleSearch` | hooks/use-search.tsx:14 | `toggleSearch` negates the flag |
| `UseSearchHook.SearchContext.SetSearchOpen` | hooks/use-search.tsx:15 | `setSearchOpen(b)` leaves the flag equal to `b` |
| `UseSearchHook.UseSearch` | hooks/use-search.tsx:24-29 | inside a provider, returns that provider's context; outside, the error "useSearch must be used within a SearchProvider" |
| `Contact.FormValid` | components/contact-section.tsx:14-19 | `contactFormSchema` accepts the data: name of at least 2 characters, email-shaped email, subject of at least 5, message of at least 10; `Errors` is empty exactly when it holds |
| `Contact.Errors` | components/contact-section.tsx:14-19 | name fails iff shorter than 2; email fails iff not email-shaped; subject iff shorter than 5; message iff shorter than 10; no error iff the form is valid |
| `Contact.DefaultsInvalid` | components/contact-section.tsx:33-38 | the four empty defaults fail the name, subject and message checks, so the initial form is invalid |
| `Contact.ErrorsPerField` | components/contact-section.tsx:14-19 | a field's message is among the schema's messages exactly when that field's own rule fails |
| `Contact.Revalidate` | components/contact-section.tsx:31-39 | re-validating an edited field shows its message exactly when its rule now fails and keeps the other fields' messages as they were |
| `Contact.RevalidateAgreesWithSchema` | components/contact-section.tsx:14-19 | after re-validation, the edited field's message is shown exactly when the full schema reports it |
| `Contact.WithField` | components/contact-section.tsx:158-170 | editing one field replaces that field and keeps the other three |
| `Contact.ContactForm.constructor` | components/contact-section.tsx:31-39 | the form starts at the four empty defaults, with no errors, toasts or submissions, and no submit attempted |
| `Contact.ContactForm.SetField` | components/contact-section.tsx:158-170 | typing changes one field; before any submit attempt the messages are kept, after one the edited field is re-validated |
| `Contact.ContactForm.OnSubmit` | components/contact-section.tsx:41-56 | the data is handed to the client; on success, success toast and reset to defaults; on failure, error toast and fields kept |
| `Contact.ContactForm.HandleSubmit` | components/contact-section.tsx:157 | `onSubmit` runs iff the schema accepts the values; otherwise the field errors are recorded; either way the attempt is recorded; nothing invalid is ever sent |
| `Navigation.NavItemsShape` | components/navigation.tsx:12-19 | exactly six links, each a `#` fragment, with pairwise-distinct hrefs |
| `Navigation.Nav.constructor` | components/navigation.tsx:8 | the mobile menu starts closed |
| `Navigation.Nav.ToggleMenu` | components/navigation.tsx:75 | the menu button negates `isMenuOpen` |
| `Navigation.Nav.HandleNavClick` | components/navigation.tsx:21-28 | a link click always closes the menu; it scrolls to `top + pageYOffset − 80` exactly when the target exists |
| `Navigation.Nav.SearchButton` | components/navigation.tsx:53 | the search button flips the shared search-open flag |
| `Skills.IconFor` | components/skills-section.tsx:31-35 | "Server", "Code" and "Cloud" map to their icons; every other name maps to nothing |
| `Skills.Dots` | components/skills-section.tsx:76-80 | exactly 5 indicators; indicator `i` is filled iff `i < level` |
| `Skills.FilledCount` | components/skills-section.tsx:76-80 | among the first `n` indicators, `max(0, min(level, n))` are filled |
| `Skills.DotsFilledCount` | components/skills-section.tsx:76-83 | a skill shows `max(0, min(level, 5))` filled indicators |
| `Skills.FilledColour` | components/skills-section.tsx:81 | a colour without `text-` is kept; otherwise the result is two characters shorter |
| `Skills.FilledColourRewritesFirstText` | components/skills-section.tsx:81 | only the first `text-` becomes `bg-`; the rest of the colour is kept |
| `Skills.FilledColourWithoutText` | components/skills-section.tsx:81 | a colour without `text-` is used unchanged |
| `Skills.DotClasses` | components/skills-section.tsx:76-83 | five classes: filled ones use the rewritten colour, unfilled ones `bg-gray-400` |

## Left out

- The Fuse.js matcher is a function parameter. Its fuzzy scoring, threshold, ranking and span computation are not modelled (components/search-overlay.tsx:15-20, 24).
- The displayed match percentage `Math.round((1 - score) * 100)` is left out because it is floating point.
- The email regex of the schema library is the predicate parameter `isEmail`. Of the form library, only its default validation modes are modelled: validate on submit, then re-validate the edited field on every change once a submit was attempted. Its other state (touched and dirty fields, submit counts) is left out.
- Contact.ContactForm.OnSubmit: the reset inside `onSubmit` clears the values and messages but not the submit-attempted flag, because the submit handler records the attempt after `onSubmit` returns; this follows the form library's order and is not visible in the repository.
- client/src/lib/google-sheets.ts is not part of this model. It is a network client (fetch, environment lookup, timestamps), so its result is the `Delivery` parameter.
- DOM calls (`querySelector`, `getBoundingClientRect`, `scrollTo`, `dangerouslySetInnerHTML`) are abstracted to a lookup, integer offsets and the returned scroll target. Pixel values are integers.
- `querySelector` throwing on a malformed selector is not modelled; the anchors and hrefs are fixed fragment selectors.
- React scheduling is not modelled. Results are recomputed immediately on a term change, where the effect really runs after the next render. Each toggle sees the committed flag, so two `toggleSearch` calls inside one handler (one flip in React, because of the captured value) are not modelled.
- Animations, toasts as UI, the theme toggle and all layout are left out. So are the static sections (about, experience, hero, projects), the page shell and the scroll/parallax listener.
- String lengths and indices count characters, not UTF-16 code units. Astral characters count once here and twice in the browser.
- SearchOverlay.HighlightMatches: requires every match to carry at least one span. The source would throw on `indices[0]` otherwise, and the matcher always supplies one.
- SearchOverlay.StepWrapsFirstOccurrence: states the literal wrap only for match texts without `$`; for any match text, `SearchOverlay.StepRewritesFirstOccurrence` states what the step does, with the `$` patterns expanded.
- SearchOverlay.HighlightLength: states the length law only for match texts without `$`. With `$` patterns, `replace` changes the inserted text (see Findings).
- Skills.IconFor: names inherited from `Object.prototype` (such as `toString`) give a value in JavaScript but `None` here.
- Skills.Dots: the level is an integer; a fractional level is not modelled.

## Findings

| source | as written | input that shows it | evidently intended | confidence | as-written member | corrected member |
|---|---|---|---|---|---|---|
| components/search-overlay.tsx:49-52 | the matched text is spliced into the replacement string of `String.replace`, which expands `$$`, `$&`, `` $` `` and `$'` in it | text "a$$b" with a match on span [1, 2]: the mark holds a single `$` | the matched text wrapped verbatim | low (needs a `$` pattern in matched text); not executed | `SearchOverlay.DollarPatternInMatchExpanded` | `SearchOverlay.HighlightLiteral` |
| components/search-overlay.tsx:117-120 | content spans index the full content but are applied to the 150-character preview | content of 200 characters with a content match on [180, 185]: `substring` clamps to "", and an empty `<mark>` goes in front of the preview | highlight only spans the preview shows | low (the matcher's default location weighting puts a field's first span near its start, so a span past 150 characters needs a long query); not executed | `SearchOverlay.HiddenContentMatchPrependsEmptyMark` | `SearchOverlay.RenderContentVisible` |
