# Star rating of a lesson page, modelled in Dafny

rating.js adds a three-star rating to a lesson page. It takes the lesson identifier from the page
path (`lesson-l0-1.html` gives `l0-1`), loads the lesson's rating from `localStorage`, draws three
star buttons, and on a click stores the new rating and redraws. Hovering over a star highlights the
stars up to it; leaving it redraws from the current rating. A rating of 3 records the lesson as
completed, and nothing ever clears that record.

The model has six modules:

- `Wrappers`: `Option`, standing for JavaScript's `null`.
- `LessonId`: `getLessonId` as a matcher over the path. `OccursAt` is a declarative reading of the
  pattern `lesson-(l\d+-\d+)\.html`. The lemmas prove that the matcher returns the token of the
  leftmost occurrence, and null exactly when there is none.
- `JsNumber`: `parseInt` with no radix (white space, sign, `0x` prefix, NaN when there is no digit)
  and `toString` of a rating. `parseInt(n.toString())` reads back `n`.
- `StarDisplay`: a star is the set of its state classes (`text-yellow-400`, `text-slate-300`,
  `scale-110`). Each redraw loop of rating.js is a function on the sequence of stars. The lemmas
  relate these functions: the committed display, hovering, restoring.
- `RatingStorage`: the two storage keys, the value loaded at start-up, and the writes of a click and
  of `updateCompletionStatus`.
- `RatingWidget`: the page state as a class `StarRating`. It holds the path, whether the container
  element exists, `currentRating`, the star buttons as an `array`, and storage as a map. A ghost log
  of the keys read lets the contracts say what is read. Each handler of rating.js is a method with a
  loop where the source has one. Four client methods chain the handlers the way the browser
  dispatches events.

The path, the container lookup and `localStorage` are inputs to the constructor. Event dispatch is
modelled as explicit calls to the handler methods.

## Stored ratings

- `parseInt` skips leading white space and one `+` or `-` before it looks for digits. A stored
  text that has no decimal digit after its leading white space and its optional sign, or that has
  `0x` or `0X` there followed by no hexadecimal digit, loads as NaN, not 0 (`ParseIntNaN`,
  `ParseIntSignWithoutDigit`, `ParseIntHexWithoutDigit`). NaN compares false with every position,
  so every star shows slate, as for 0. `NaN === 3` is false, so nothing is written
  (`CommittedFirstLit`, `CompletionWriteEffect`).
- Text that is not exactly a rating's decimal digits can still load as a number. `" 3"` and `"+3"`
  load as 3 and record completion at start-up. `"-1"` loads as -1 (`LoadedRatingUntidy`,
  `ParseIntSignedDecimal`).
- The stored text is not range-checked. `"7"` loads as 7, lights all three stars and records no
  completion (`LoadedRatingStored`, `CommittedFirstLit`).

## Model

| member | source | states |
|---|---|---|
| LessonId.GetLessonId | rating.js:8-12 | no contract: defines `getLessonId` as the scan `FindFrom(path, 0)`; characterised by `GetLessonIdSound`, `GetLessonIdComplete` and `GetLessonIdNone` |
| LessonId.MatchFront | rating.js:10-11 | no contract: defines the anchored match of `lesson-(l\d+-\d+)\.html` at the front of a text; characterised by `MatchFrontSound`, `MatchFrontComplete` and `NoneAtMeansNoOccurrence` |
| LessonId.FindFrom | rating.js:10-11 | no contract: defines the leftmost-match scan of a non-global `match` from a position on; characterised by `FindFromFound`, `FindFromNotFound` and `FindFromFirst` |
| LessonId.DigitRun | rating.js:10 | a greedy `\d+` run: it stays in bounds, every character it covers is a digit, and the next character is not |
| LessonId.MatchFrontSound | rating.js:10-11 | a match at a position returns the token `l<a>-<b>` of an occurrence of `lesson-l<a>-<b>.html` with non-empty digit groups there |
| LessonId.MatchFrontComplete | rating.js:10-11 | an occurrence of the pattern at a position is matched there, with its own token as the group |
| LessonId.NoneAtMeansNoOccurrence | rating.js:10 | a failed match at a position means the pattern does not occur there |
| LessonId.FindFromFound | rating.js:10-11 | what the scan finds is the token of an occurrence with none before it |
| LessonId.FindFromNotFound | rating.js:10-11 | when the scan finds nothing, the pattern occurs nowhere after the start |
| LessonId.FindFromFirst | rating.js:10-11 | the scan returns the token of the first occurrence |
| LessonId.GetLessonIdSound | rating.js:8-12 | a returned identifier is the token of the leftmost occurrence of the pattern in the path |
| LessonId.GetLessonIdComplete | rating.js:8-12 | the leftmost occurrence's token is the identifier returned |
| LessonId.GetLessonIdNone | rating.js:8-12 | the result is null iff the pattern occurs nowhere in the path |
| LessonId.IndexPageHasNoLessonId | rating.js:8-12 | `/index.html` has no lesson identifier |
| LessonId.LessonPageId | rating.js:8-12 | `/lesson-l0-1.html` has the identifier `l0-1` |
| JsNumber.ParseInt | rating.js:26 | no contract: defines `parseInt` with no radix as white-space skipping followed by `ParseTrimmed`; characterised by `ParseIntRoundTrip`, `ParseIntSkipsWhiteSpace`, `ParseIntNaN` and the sign and `0x` lemmas |
| JsNumber.ParseTrimmed | rating.js:26 | no contract: defines the optional `-` or `+` sign of `parseInt`; characterised by `SignedText` |
| JsNumber.ParseUnsigned | rating.js:26 | no contract: defines the choice of radix 16 after `0x`/`0X` and radix 10 otherwise; characterised by `HexPrefixWithoutDigit` and `ParseIntOfDecimal` |
| JsNumber.ParseDigits | rating.js:26 | no contract: defines the value of the leading digit run, NaN when it is empty; characterised through `LeadingDigits` and `DecimalStringValue` |
| JsNumber.TrimStart | rating.js:26 | `parseInt` skips exactly the leading ECMAScript white space: what is left is a suffix that starts with no white space |
| JsNumber.LeadingDigits | rating.js:26 | `parseInt` reads the longest run of radix digits at the front |
| JsNumber.DecimalString | rating.js:63 | `toString` of a non-negative integer is a non-empty string of decimal digits with a leading zero only for 0 |
| JsNumber.DecimalStringValue | rating.js:63 | the digits `toString` writes have the number's value |
| JsNumber.ParseIntOfDecimal | rating.js:26 | `parseInt` reads back `n.toString()` followed by any non-digit text, except that `0` followed by `x` starts a hexadecimal number |
| JsNumber.ParseIntRoundTrip | rating.js:26 | `parseInt(n.toString())` is `n` |
| JsNumber.ParseIntSkipsWhiteSpace | rating.js:26 | leading white space does not change what `parseInt` reads |
| JsNumber.ParseIntNaN | rating.js:26 | text that starts with anything but white space, a sign or a digit reads as NaN |
| JsNumber.ParseIntSignedDecimal | rating.js:26 | after any white space, `+` before decimal text reads as its number and `-` as its negation |
| JsNumber.ParseIntPaddedDecimal | rating.js:26 | decimal text with white space and at most a `+` in front reads as its number |
| JsNumber.ParseIntSignWithoutDigit | rating.js:26 | after any white space, a sign followed by no decimal digit (and no `0x`) reads as NaN |
| JsNumber.ParseIntHexWithoutDigit | rating.js:26 | after any white space and an optional sign, `0x` or `0X` followed by no hexadecimal digit reads as NaN |
| JsNumber.HexPrefixWithoutDigit | rating.js:26 | `0x` or `0X` followed by no hexadecimal digit reads as NaN |
| JsNumber.SignedText | rating.js:26 | after any white space, `parseInt` reads the text after a sign, negated for `-` |
| RatingStorage.StoredOrZero | rating.js:26 | no contract: defines `getItem(key) \|\| '0'`, a missing or empty entry giving "0"; characterised by `LoadedRatingDefault` |
| RatingStorage.LoadedRating | rating.js:26 | no contract: defines the rating `initStarRating` loads; characterised by `LoadedRatingDefault`, `LoadedRatingStored`, `LoadedRatingUntidy` and `ReloadRoundTrip` |
| RatingStorage.CompletionWrite | rating.js:116-124 | no contract: defines the storage after `updateCompletionStatus`; characterised by `CompletionWriteEffect` |
| RatingStorage.ClickWrite | rating.js:58-70 | no contract: defines the storage after the two writes of `handleStarClick` (lines 63 and 69); characterised by `ClickWriteEffect` |
| RatingStorage.ClickSeries | rating.js:58-70 | no contract: defines the storage after a series of clicks; characterised by `CompletedStaysCompleted` and `CompletedOnlyTrue` |
| RatingStorage.KeysDistinct | rating.js:63 | a rating key is never a completion key, so the two writes of a click do not interfere |
| RatingStorage.CompletionWriteEffect | rating.js:116-124 | after the write the lesson is completed iff the rating is 3 or it was completed already; a rating other than 3 writes nothing; the flag is only ever written with "true"; no other entry changes |
| RatingStorage.ClickWriteEffect | rating.js:58-70 | a click stores the rating's decimal text under `lesson_rating_<id>`, completes the lesson iff the rating is 3 (keeping an earlier completion), and changes no other entry (not even the completion entry unless the rating is 3) |
| RatingStorage.CompletedStaysCompleted | rating.js:119-123 | once a lesson is completed, no series of clicks clears the flag |
| RatingStorage.CompletedOnlyTrue | rating.js:118 | a completion entry that is absent or "true" is still absent or "true" after any series of clicks: it is only ever written with "true" |
| RatingStorage.LoadedRatingDefault | rating.js:26 | a missing or empty rating entry loads as rating 0 |
| RatingStorage.LoadedRatingStored | rating.js:26 | a rating stored as decimal text loads as that rating |
| RatingStorage.LoadedRatingUntidy | rating.js:26-54 | a rating stored with white space or `+` in front of its digits loads as that rating, and completion is recorded at start-up iff it is 3 or was recorded before |
| RatingStorage.ReloadRoundTrip | rating.js:26-63 | reloading the page after a click on star `k` loads rating `k` |
| StarDisplay.AtMost | rating.js:37 | no contract: defines the comparison `i <= currentRating`, false for NaN; used by `CommittedFirstLit` and `RestoredIsCommitted` |
| StarDisplay.InitialStar | rating.js:37-41 | no contract: defines star `i` as created by `initStarRating`; characterised through `Committed` |
| StarDisplay.Committed | rating.js:29-41 | no contract: defines the display `initStarRating` draws; characterised by `CommittedIsTheDisplayOfItsRating` and `CommittedFirstLit` |
| StarDisplay.UpdatedStar | rating.js:76-83 | no contract: defines one iteration of `updateStars`; characterised through `Updated` |
| StarDisplay.Updated | rating.js:73-85 | no contract: defines the display after `updateStars`; characterised by `UpdatedShowsRating` and `UpdatedFromCommitted` |
| StarDisplay.HighlightedStar | rating.js:91-95 | no contract: defines one iteration of `highlightStars`; characterised through `Highlighted` |
| StarDisplay.Highlighted | rating.js:88-97 | no contract: defines the display after `highlightStars`; characterised by `HighlightedEffect` |
| StarDisplay.RestoredStar | rating.js:103-111 | no contract: defines one iteration of `restoreStars`; characterised through `Restored` |
| StarDisplay.Restored | rating.js:100-113 | no contract: defines the display after `restoreStars`; characterised by `RestoredIsCommitted` |
| StarDisplay.CommittedIsTheDisplayOfItsRating | rating.js:37-41 | the display drawn at start-up gives each star one colour, yellow exactly up to the rating, and no scaling; it is the only display with both properties |
| StarDisplay.CommittedFirstLit | rating.js:37-41 | star `i` of the committed display is yellow iff `i <= rating` and slate otherwise; NaN lights none |
| StarDisplay.UpdatedShowsRating | rating.js:73-85 | after `updateStars(r)` every star has exactly one colour, yellow iff its position is at most `r`, and keeps its scaling |
| StarDisplay.UpdatedFromCommitted | rating.js:58-85 | a click on an un-hovered display gives the committed display of the clicked rating |
| StarDisplay.HighlightedEffect | rating.js:88-97 | `highlightStars(k)` makes stars 1..k yellow and scaled and removes slate from them; stars beyond `k` stay exactly as they were |
| StarDisplay.RestoredIsCommitted | rating.js:100-113 | `restoreStars` draws the committed display of the current rating, whatever the display was before |
| StarDisplay.HoverThenLeave | rating.js:47-48 | hover-enter on any star and then hover-leave, with no click in between, give back the committed display |
| StarDisplay.CommittedOneColour | rating.js:37-41 | the display drawn at start-up gives every star exactly one colour |
| StarDisplay.UpdatedOneColour | rating.js:73-85 | `updateStars` leaves every star with exactly one colour, whatever the display was |
| StarDisplay.HighlightedOneColour | rating.js:88-97 | `highlightStars` keeps every star at exactly one colour |
| StarDisplay.RestoredOneColour | rating.js:100-113 | `restoreStars` leaves every star with exactly one colour, whatever the display was |
| StarDisplay.ClickWhileHovered | rating.js:58-97 | a click on star `k` while star `h` is hovered shows, apart from `scale-110`, the committed display of `k`; exactly the stars up to `h` stay scaled |
| RatingWidget.StarRating.constructor | rating.js:15 | before initialisation the current rating is 0, there are no stars and nothing has been read |
| RatingWidget.StarRating.GetItem | rating.js:26 | reading storage returns the entry or null and logs the key |
| RatingWidget.StarRating.SetItem | rating.js:63 | writing storage sets one entry |
| RatingWidget.StarRating.InitStarRating | rating.js:18-55 | with no lesson identifier or no container nothing changes and nothing is read; otherwise the rating key is read once, `currentRating` is the loaded rating, three fresh stars show that rating, and completion is recorded iff it is 3 |
| RatingWidget.StarRating.CreateStars | rating.js:29-51 | the creation loop makes three fresh stars coloured from the rating |
| RatingWidget.StarRating.HandleStarClick | rating.js:58-70 | a click on star `k` makes `k` the current rating, writes storage as `ClickWrite` says, and redraws with `updateStars(k)`; nothing is read |
| RatingWidget.StarRating.UpdateStars | rating.js:73-85 | the stars become `Updated(old stars, rating)` |
| RatingWidget.StarRating.HighlightStars | rating.js:88-97 | the stars become `Highlighted(old stars, rating)` |
| RatingWidget.StarRating.RestoreStars | rating.js:100-113 | the stars become `Restored(old stars, currentRating)` |
| RatingWidget.StarRating.UpdateCompletionStatus | rating.js:116-124 | storage becomes `CompletionWrite(old storage, lessonId, rating)` |
| RatingWidget.HoverAndLeave | rating.js:47-48 | on a page showing its committed display, hover-enter then hover-leave leaves the stars as they were |
| RatingWidget.ClickThreeThenOne | rating.js:58-70 | clicking star 3 and then star 1 leaves rating 1 stored and the lesson completed |
| RatingWidget.ReloadAfterClick | rating.js:18-70 | a page clicked on star `k` with no star hovered (keyboard activation) and a page then loaded from the storage it left show the same stars, those of rating `k` |
| RatingWidget.ReloadAfterHoveredClick | rating.js:18-97 | a page hovered on star `h` and clicked on star `k`, and a page then loaded from the storage it left: the reloaded page shows the stars of rating `k`, and the clicked page shows the same ones apart from `scale-110` on stars 1..`h` |

## Left out

- DOM construction: the button `type`, `data-rating`, `innerHTML` and the presentation classes
  (`star-btn`, focus and transition classes). A star is modelled as the set of its three state classes.
- Event-listener registration and the `DOMContentLoaded`/`readyState` scheduling. These are modelled
  as explicit calls to the handler methods. The client methods in `RatingWidget` show such calls.
- `document.querySelectorAll('.star-btn')` is taken to return exactly the widget's stars, in order.
  This is a modelling assumption, not a proved fact.
- RatingWidget.StarRating.InitStarRating: requires an empty star array, because the script runs
  initialisation once per page load. A second call, which would append three more buttons, is not
  modelled.
- RatingWidget.StarRating.HandleStarClick: requires a rating from 1 to 3. The only caller is the
  click listener of star `i`, with `i` from 1 to 3.
- JavaScript numbers are modelled as unbounded integers plus NaN. Double precision above 2^53 and
  the sign of `-0` are not modelled. `toString` is modelled for non-negative integers only, which
  covers every rating a click writes.
- Strings are sequences of Unicode scalar values, not UTF-16 code units.
- Storage failures (quota, storage disabled) are not modelled. The script does not handle them either.
