# Zen Zone Cleaning site logic, in Dafny

A model of the small pieces of logic in the Zen Zone Cleaning website and its build scripts, with the properties the code promises proved about them. There is one module per source file, and a shared module `Js` for the JavaScript semantics the code leans on.

- **Trackers** (`tracking_public.dfy`, `tracking_legacy.dfy`, `tracking_wire.dfy`). Field-event tracking in `public/js/Tracking.js` and its older copy `js/Tracking.js`.
  - Each is a class holding the event queue, browser storage and a log of the requests handed to the browser.
  - The newer tracker validates field ids against the sheet's column allow-list and supports the override batch `Tracking._q`.
  - The older one validates against the pattern `^[A-Za-z0-9_]+$`, always drains its queue, and has `trackSubmitted`.
  - Whether a beacon is available and accepted, and the generated user id, are parameters.
- **Booking form** (`booking.dfy`). `src/components/BookingPage.js`:
  - the initial form data and the `handleInputChange` reducer;
  - the step counter and its validation gate, submission, the step titles;
  - the controls each step renders, with their `required`, `pattern`, `min` and `max` constraints. `validateCurrentStep` scans these with an early exit.
- **Gallery** (`gallery.dfy`). `src/components/Gallery.js`: the photo list, captions and mosaic sizes, the `limit`, and a lightbox class whose index moves with the buttons and arrow keys and is clamped when the limit changes.
- **Blog post** (`blog.dfy`). `src/components/BlogPostPage.js`: the post lookup, and the loop that groups `li` blocks into lists with a pending buffer and a list counter.
- **Campaign attribution** (`utilities.dfy`). `initSessionAndUtm` of `public/js/Utilities.js`:
  - the session id is written only when absent;
  - the campaign parameters are copied into local storage.
  - Storage is modelled as maps, and the query string as a map.
- **Asset versioning** (`version_assets.dfy`). `shouldEdit` and `versionUrls` of `scripts/versionAssets.js`.
  - The global regular-expression replace is a left-to-right scanner: a leftmost match, the longest name that ends in `.avif` or `.webp`, then an optional query.
  - It is proved to lose no text, to version every match, and to be idempotent.
- **Image conversion** (`optimize_images.dfy`). `scripts/optimizeImages.js`:
  - the WebP allow-list and the accepted extensions;
  - the width-variant selection and the freshness rule;
  - the output names, and the directory-walk skip rule.
- **Cache purge** (`purge_cloudflare.dfy`). `scripts/purgeCloudflare.js`:
  - the fallback `.env` parser, a class over the process environment that never overrides a variable that holds a non-empty value;
  - the purge-URL list and the request it leads to;
  - the missing-credential exits and the success test.
- **Reviews** (`reviews.dfy`). The `src/components/Reviews.js` helpers:
  - avatar initials;
  - the predicate that hides the placeholder text;
  - the star row;
  - the newest-first ordering, a stable sort with dates as integer keys.

## Model

| member | source | states |
|---|---|---|
| Js.NatToString | public/js/Tracking.js:31 | a natural number is written as one or more decimal digits, a single one exactly below ten |
| Js.StringOrEmpty | public/js/Tracking.js:31 | a falsy id reads as the empty string and a string id as itself |
| Js.TrimSpec | src/components/Reviews.js:27 | `trim()` keeps the infix between a whitespace prefix and a whitespace suffix, and the result has no whitespace at either end |
| Js.TrimEmpty | src/components/Reviews.js:40-41 | `trim()` gives the empty string exactly on all-whitespace input |
| Js.ContainsAt | scripts/optimizeImages.js:29 | `includes` holds exactly when the part occurs at some index |
| Js.Lower | src/components/Reviews.js:41 | lower-casing keeps the length and maps each character on its own |
| Js.Upper | src/components/Reviews.js:31 | upper-casing keeps the length and maps each character on its own |
| Js.LowerAppend | src/components/Reviews.js:41 | lower-casing distributes over concatenation |
| TrackingWire.ResolveUserId | public/js/Tracking.js:39-40 | the stored user id when it is non-empty, otherwise the generated one; the tracker classes store it back |
| TrackingWire.Accepted | public/js/Tracking.js:83 | the kept events are exactly the batch's events whose field id is valid, no more of them than in the batch (a sub-multiset) |
| TrackingWire.AcceptedAppend | js/Tracking.js:68 | filtering distributes over concatenation, so kept events stay in batch order |
| TrackingWire.AcceptedAllValid | js/Tracking.js:68 | a batch of valid events passes the filter unchanged |
| TrackingWire.AcceptedEmpty | public/js/Tracking.js:84 | the filter keeps nothing exactly when no event of the batch is valid |
| TrackingWire.Transmit | public/js/Tracking.js:100-115 | the beacon is used iff the browser offers one; the `fetch` fallback is issued iff the beacon was unavailable or refused; both carry the same payload |
| PublicTracking.IsAllowedField | public/js/Tracking.js:17-27 | own-property lookup in `allowedFields`: exactly the listed sheet columns |
| PublicTracking.IsValidFieldId | public/js/Tracking.js:30-33 | the field id, read as a string with a falsy id as empty, is on the allow-list; its cases are proved in `ValidFieldIdCases` |
| PublicTracking.ValidFieldIdCases | public/js/Tracking.js:30-33 | falsy ids and booleans are rejected; a string id is accepted exactly when it names a sheet column |
| PublicTracking.SafeEvents | public/js/Tracking.js:83 | an event is kept iff it is in the batch and its id is on the allow-list |
| PublicTracking.Tracker.constructor | public/js/Tracking.js:13 | the tracker starts with an empty queue, no override batch and nothing sent |
| PublicTracking.Tracker.SetOverride | public/js/Tracking.js:81 | a caller's `Tracking._q` becomes the batch the next flush takes |
| PublicTracking.Tracker.SendData | public/js/Tracking.js:35-67 | a rejected field changes nothing; an accepted one stores the resolved user id and issues exactly one `fetch` with the single-field payload |
| PublicTracking.Tracker.Queue | public/js/Tracking.js:71-76 | an accepted event is appended at the tail, a rejected one ignored; the queue keeps holding only accepted events |
| PublicTracking.Tracker.Flush | public/js/Tracking.js:78-117 | the override batch, when set, is flushed instead of the queue and leaves the queue alone; otherwise the queue is emptied; the accepted events, when any, go out by beacon with `fetch` fallback, and nothing is sent when none is accepted |
| PublicTracking.AllValidAppend | public/js/Tracking.js:73-74 | appending an accepted event keeps the queue all-accepted |
| PublicTracking.FlushOfQueueSendsQueue | public/js/Tracking.js:81-83 | flushing the queue sends every queued event, in queue order |
| PublicTracking.SafeEventsInOrder | public/js/Tracking.js:83 | filtering a concatenation is filtering each part in turn |
| PublicTracking.NothingSentIffAllRejected | public/js/Tracking.js:84 | a batch yields no request exactly when none of its events is accepted |
| LegacyTracking.MatchesFieldPattern | js/Tracking.js:18 | `^[A-Za-z0-9_]+$`: a non-empty run of ASCII letters, digits and underscores |
| LegacyTracking.IsValidFieldId | js/Tracking.js:17-19 | the pattern on the field id read as a string, a falsy id as empty; its cases are proved in `ValidFieldIdCases`, and `AllowListIsStricter` relates it to the newer tracker |
| LegacyTracking.ValidFieldIdCases | js/Tracking.js:17-19 | falsy ids are rejected, `true` is accepted, and a number is accepted exactly when positive |
| LegacyTracking.AllowedFieldMatchesPattern | js/Tracking.js:18 | every column of the newer tracker's allow-list (public/js/Tracking.js:18-28) matches `^[A-Za-z0-9_]+$` |
| LegacyTracking.AllowListIsStricter | js/Tracking.js:17-19 | whatever the allow-list accepts, the pattern accepts |
| LegacyTracking.PatternAcceptsMore | js/Tracking.js:18 | the pattern accepts a field id that is not a column, so the older tracker can post fields the sheet does not have |
| LegacyTracking.SafeEvents | js/Tracking.js:67-68 | an event is kept iff it is in the queue and its id matches the pattern |
| LegacyTracking.SubmittedEventIsValid | js/Tracking.js:107 | the submit event would pass either validator, though `trackSubmitted` checks neither |
| LegacyTracking.AllValidAppend | js/Tracking.js:59-60 | appending an accepted event keeps the queue all-accepted |
| LegacyTracking.Tracker.constructor | js/Tracking.js:13 | the tracker starts with an empty queue and nothing sent |
| LegacyTracking.Tracker.SendData | js/Tracking.js:21-53 | a rejected field changes nothing; an accepted one stores the resolved user id and issues one `fetch` with the single-field payload |
| LegacyTracking.Tracker.Queue | js/Tracking.js:57-62 | an accepted event is appended at the tail, a rejected one ignored |
| LegacyTracking.Tracker.Flush | js/Tracking.js:64-98 | the queue is always left empty; its accepted events, when any, go out by beacon with `fetch` fallback |
| LegacyTracking.Tracker.TrackSubmitted | js/Tracking.js:100-116 | one request carrying only the submit event, by beacon when available (its answer ignored) and by `fetch` otherwise; the queue is not touched |
| LegacyTracking.QueuedBatchIsSent | js/Tracking.js:69 | a non-empty queue filled by `queue` always yields a request: the all-rejected branch is unreachable from `queue` |
| LegacyTracking.FlushSendsQueue | js/Tracking.js:68 | flushing sends exactly the queued events, in order |
| Utilities.UtmKeysListed | public/js/Utilities.js:32 | six keys are persisted: the five `utm_*` parameters and `gclid` |
| Utilities.WithSessionId | public/js/Utilities.js:25-28 | a present non-empty session id is kept, otherwise the generated one is stored; the key is always present afterwards, empty only if the generated id is, and every other key is unchanged; `SessionIdSetOnce` proves the id is set once |
| Utilities.WithCampaign | public/js/Utilities.js:31-40 | key by key: a listed key with a non-empty value whose write does not throw takes the query's value, every other key keeps what was stored |
| Utilities.WriteKeys | public/js/Utilities.js:33-40 | the `forEach` over the keys, one guarded write at a time; `WriteKeysSpec` proves it equal to `WithCampaign` |
| Utilities.WriteKeysTouches | public/js/Utilities.js:33-40 | writing keys in turn touches exactly those with a value whose write does not throw |
| Utilities.WriteKeysSpec | public/js/Utilities.js:32-40 | the loop over the listed keys gives the key-by-key description |
| Utilities.OnlyCampaignKeys | public/js/Utilities.js:32 | no key outside the six listed ones changes |
| Utilities.CampaignOverwrites | public/js/Utilities.js:35-38 | a listed key with a value overwrites what was stored; one whose write throws keeps its old value |
| Utilities.MissingParameterKeepsValue | public/js/Utilities.js:34-35 | a parameter absent or empty in the address leaves storage as it was |
| Utilities.CampaignIdempotent | public/js/Utilities.js:31-40 | loading the same address twice stores the same as loading it once |
| Utilities.SessionIdSetOnce | public/js/Utilities.js:25-28 | an id once set survives later loads and is non-empty |
| Utilities.Browser.constructor | public/js/Utilities.js:1-2 | the page starts with the given storages |
| Utilities.Browser.InitSessionAndUtm | public/js/Utilities.js:23-42 | with session storage available, both storages take the values above; when its first access throws, nothing is written |
| Gallery.FileNames | src/components/Gallery.js:7-40 | the gallery ships 32 photos |
| Gallery.MakeCaption | src/components/Gallery.js:60 | `Project ` followed by the name without a final `.jpg` in any case; `CaptionOfJpg` and `CaptionKeepsOtherExtension` state the two cases |
| Gallery.StripJpg | src/components/Gallery.js:60 | the result is a prefix of the name; a final `.jpg` in any letter case is removed, and any other name is kept whole |
| Gallery.CaptionOfJpg | src/components/Gallery.js:60 | the caption of `stem` plus a `.jpg` extension in any case is `Project stem` |
| Gallery.CaptionOfShippedPhoto | src/components/Gallery.js:60-65 | the photo at position i is captioned `Project i+1` |
| Gallery.CaptionKeepsOtherExtension | src/components/Gallery.js:60 | for every stem and every four-character extension that is not `.jpg` in some letter case, the caption is `Project ` followed by the whole name, extension included |
| Gallery.GalleryItems | src/components/Gallery.js:62-67 | one item per photo, with source under `/images/gallery/`, alt and caption both the caption of its name, and the mosaic size of its position modulo the pattern |
| Gallery.MosaicRepeats | src/components/Gallery.js:43-59 | tiles fifteen apart have the same size |
| Gallery.JsRem | src/components/Gallery.js:78 | JavaScript `%` agrees with the mathematical remainder on non-negative operands |
| Gallery.TotalItems | src/components/Gallery.js:76 | without a truthy limit, all 32 photos; with a positive one, the smaller of the limit and 32; never zero |
| Gallery.ItemsToRender | src/components/Gallery.js:121 | the rendered items are a prefix of the gallery, as many as `totalItems` for a positive limit and all of them without one |
| Gallery.OpenIndex | src/components/Gallery.js:78 | opening a tile gives an index inside the total |
| Gallery.Prev | src/components/Gallery.js:80-83 | a closed lightbox stays closed; an index in range stays in range |
| Gallery.Next | src/components/Gallery.js:84-87 | a closed lightbox stays closed; an index in range stays in range |
| Gallery.PrevNextInverse | src/components/Gallery.js:80-87 | next undoes previous and previous undoes next |
| Gallery.NextTimesMoves | src/components/Gallery.js:84-87 | n presses of next, n at most the total, move n places forward and wrap once past the end |
| Gallery.FullCycle | src/components/Gallery.js:84-87 | pressing next `totalItems` times returns to the starting photo |
| Gallery.ActiveItem | src/components/Gallery.js:126-129 | an item is shown iff the index is set and inside the rendered items, and it is the item at that index; `OpenedTileIsShown` applies it to the lightbox |
| Gallery.OpenedTileIsShown | src/components/Gallery.js:121-161 | with a positive limit or none, opening any rendered tile shows that item |
| Gallery.Lightbox.constructor | src/components/Gallery.js:75 | the lightbox starts closed |
| Gallery.Lightbox.Shown | src/components/Gallery.js:126-132 | an open lightbox always has an item to show |
| Gallery.Lightbox.Open | src/components/Gallery.js:78 | the index becomes the tile's index modulo the total |
| Gallery.Lightbox.Close | src/components/Gallery.js:79 | the lightbox closes |
| Gallery.Lightbox.ShowPrev | src/components/Gallery.js:80-83 | the index moves one back, wrapping, and stays showable |
| Gallery.Lightbox.ShowNext | src/components/Gallery.js:84-87 | the index moves one forward, wrapping, and stays showable |
| Gallery.Lightbox.OnKey | src/components/Gallery.js:89-98 | while open, Escape closes, ArrowLeft and ArrowRight step, other keys do nothing; while closed, no key has an effect |
| Gallery.Lightbox.SetLimit | src/components/Gallery.js:100-106 | after a new limit, an open index at or past the new total moves to the last item, any other index is kept |
| Blog.ElementOf | src/components/BlogPostPage.js:103-113 | an `h2`, `p` or `note` block yields exactly one non-list element, any other kind none |
| Blog.Flush | src/components/BlogPostPage.js:95-102 | the pending buffer is always empty afterwards; the list it closes is described by `FlushItems`, `FlushKeys` and `FlushOthers` |
| Blog.Step | src/components/BlogPostPage.js:74-114 | one iteration of the `forEach` for a `ul`, an `li` or another block; `StepItems`, `StepKeys` and `StepOthers` state its effect |
| Blog.Fold | src/components/BlogPostPage.js:74-114 | the loop state after the blocks in order; `FoldItems`, `FoldKeys` and `FoldOthers` state it |
| Blog.Render | src/components/BlogPostPage.js:70-124 | the loop followed by the final flush; `RenderSpec` states the rendered body and `RenderBlocks` is proved equal to it |
| Blog.RenderBlocks | src/components/BlogPostPage.js:70-124 | the loop with its buffer and counter computes the body that `Render` specifies, so every property of `RenderSpec` holds of its output |
| Blog.FlushItems | src/components/BlogPostPage.js:95-102 | closing the pending items moves them unchanged to the end of the emitted items |
| Blog.FlushKeys | src/components/BlogPostPage.js:97 | closing the pending items takes the next list key |
| Blog.FlushOthers | src/components/BlogPostPage.js:95-102 | closing adds neither a non-list element nor an empty list |
| Blog.StepItems | src/components/BlogPostPage.js:74-114 | one iteration adds the block's item, if it is an `li`, after everything emitted or pending |
| Blog.StepKeys | src/components/BlogPostPage.js:77-100 | one iteration keeps the list keys numbered `0, 1, ...` up to `listKey` |
| Blog.StepOthers | src/components/BlogPostPage.js:75-113 | one iteration adds the block's own element, if any, to the non-list elements, and one empty list per `ul` block |
| Blog.FoldItems | src/components/BlogPostPage.js:74-114 | after the loop every `li` text is emitted or pending, once each, in block order |
| Blog.FoldKeys | src/components/BlogPostPage.js:74-114 | after the loop the lists are keyed `0, 1, ...` and `listKey` counts them |
| Blog.FoldOthers | src/components/BlogPostPage.js:74-114 | after the loop the headings, paragraphs and notes are the block order's, and there is one empty list per `ul` |
| Blog.RenderSpec | src/components/BlogPostPage.js:70-124 | every `li` text appears exactly once across the lists, in block order; lists are keyed `ul-0`, `ul-1`, ... in order; one empty list per `ul` block; the other elements are the `h2`, `p` and `note` blocks in order |
| Blog.LiRun | src/components/BlogPostPage.js:90-93 | for any blocks whose tail from index `k` is all `li` blocks, the state after them is the state after the first `k` blocks with one pending item per tail block appended, tagged with that block's own index; elements and list key are unchanged |
| Blog.UlThenLiState | src/components/BlogPostPage.js:75-93 | after any blocks, a `ul` block and a run of `li` blocks, the pending items are closed, an empty list is emitted under the next key, and the run's items are pending under the key after it |
| Blog.UlThenLi | src/components/BlogPostPage.js:75-122 | for any blocks before it and any non-empty run of `li` blocks after a `ul` block, the items do not fill the `ul` list: the body renders what came before, then an empty list, then a second list holding the run's items with their indices |
| Blog.FindPost | src/components/BlogPostPage.js:10 | no post is found iff no post has the slug; a found post is in the list and has the slug |
| Blog.FindPostFirst | src/components/BlogPostPage.js:10 | the first post with the slug is the one found |
| Blog.BlogPostPage | src/components/BlogPostPage.js:8-25 | the page is "not found" iff no post has the slug; otherwise it shows that post with its rendered body |
| Blog.PostWithoutContent | src/components/BlogPostPage.js:11 | a post with no content entry shows an empty body |
| Booking.InitialStateKeys | src/components/BookingPage.js:13-63 | the form holds exactly the text fields, `extras` and `images` |
| Booking.ListFieldsNotText | src/components/BookingPage.js:47-62 | `extras` and `images` are not text fields |
| Booking.InitialStateValues | src/components/BookingPage.js:13-63 | every text field starts as `''`; `extras` and `images` start as empty lists |
| Booking.Remove | src/components/BookingPage.js:78 | the filtered list holds exactly the other values, never the removed one, and every other value as often as before (multiset) |
| Booking.RemoveAppend | src/components/BookingPage.js:78 | filtering distributes over concatenation, so the kept values stay in their order |
| Booking.RemoveAbsent | src/components/BookingPage.js:78 | filtering out a value that is not there changes nothing |
| Booking.RemoveAppended | src/components/BookingPage.js:78-79 | filtering out the value just appended restores the list |
| Booking.Toggle | src/components/BookingPage.js:75-80 | a selected extra is removed, every copy of it, with the other extras kept in order and multiplicity (`Remove`); an unselected one is appended at the end |
| Booking.ToggleTwiceRestores | src/components/BookingPage.js:75-80 | toggling an unselected extra twice restores the selection exactly |
| Booking.Reduce | src/components/BookingPage.js:70-96 | the updater of `handleInputChange`; `ReduceTouchesOnlyNamedField` and `ReduceStores` state what it writes |
| Booking.ReduceTouchesOnlyNamedField | src/components/BookingPage.js:74-95 | every change writes the field it names and leaves every other field as it was |
| Booking.ReduceStores | src/components/BookingPage.js:74-95 | the stored value per kind of change: extras toggled, `firstTimeDeepCleaning` `'Yes'` or `''`, other checkboxes their `checked`, file inputs their files or `[]`, everything else its `value` |
| Booking.ExtrasClickedTwice | src/components/BookingPage.js:75-80 | clicking the same unselected extra twice restores the form data |
| Booking.NextStep | src/components/BookingPage.js:118 | from a step in 1..6 the next is in 1..6, one more below the last step, and never smaller |
| Booking.PrevStep | src/components/BookingPage.js:123 | from a step in 1..6 the previous is in 1..6, one less above the first step, and never larger |
| Booking.StepRoundTrips | src/components/BookingPage.js:116-125 | going back and forth between two steps returns to where one started |
| Booking.StepEnds | src/components/BookingPage.js:118-123 | the last step is a fixed point of next and the first one of previous |
| Booking.StepTitle | src/components/BookingPage.js:138-155 | the title is empty exactly for a step outside 1..6 |
| Booking.PhonePattern | src/components/BookingPage.js:242 | an optional `+`, then one or more digits, blanks, parentheses or hyphens holding 10 to 15 digits; `PhonePatternShape` and `PhoneSinglePlus` state its consequences |
| Booking.DigitCount | src/components/BookingPage.js:242 | the digit count is at most the length, equals it exactly when every character is a digit, and is zero exactly when none is |
| Booking.PhonePatternShape | src/components/BookingPage.js:242 | an accepted phone number has at least ten characters and no `+` after the first |
| Booking.PhoneSinglePlus | src/components/BookingPage.js:242 | a doubled leading `+` is never accepted |
| Booking.PostalPattern | src/components/BookingPage.js:799 | letter, digit, letter, an optional space or hyphen, digit, letter, digit: the intended format, checked by `PostalPatternSeparators` |
| Booking.PostalPatternAsWritten | src/components/BookingPage.js:799 | the same format with a literal backslash and `d` in each digit position, as the attribute string reads |
| Booking.PostalAsWrittenRejectsRealCodes | src/components/BookingPage.js:799 | the pattern as written accepts no real postal code (not `L4M 1A1`), and accepts a string of backslashes and `d`s |
| Booking.PostalPatternSeparators | src/components/BookingPage.js:799-800 | the corrected pattern accepts a code with a space, a hyphen or nothing between its halves, and no other separator |
| Booking.DigitsValueOfNatToString | src/components/BookingPage.js:578-581 | the decimal digits of a year read back as that year |
| Booking.BuiltYearRange | src/components/BookingPage.js:577-581 | the `builtYear` input accepts a year written in decimal exactly when it lies between 1900 and the current year |
| Booking.NumberInRange | src/components/BookingPage.js:446-581 | a whole number of decimal digits at least `min` and at most `max` when there is one; `BuiltYearRange` applies it to `builtYear` |
| Booking.CheckValidity | src/components/BookingPage.js:108 | `checkValidity()`: the field holds a value and meets the control's phone, postal or number constraint |
| Booking.StepControls | src/components/BookingPage.js:185-904 | the controls each step panel renders, with their `required` attribute and constraint; `RecurringRequirements`, `OneTimeRequirements` and `OptionalFields` state which are required |
| Booking.StepValid | src/components/BookingPage.js:100-114 | every control of the step is optional or valid; `EmptyRequiredBlocks` and `FreshFormBlocked` state its failures and `CheckControls` is proved equal to it |
| Booking.RequiredNames | src/components/BookingPage.js:106-108 | a name is required iff some control of the step carries it with `required` |
| Booking.RecurringRequirements | src/components/BookingPage.js:356-654 | `frequency` and `package` are required exactly for a recurring booking |
| Booking.OneTimeRequirements | src/components/BookingPage.js:426-720 | `reason`, `interiorWindows` and `insideEmptyKitchenCabinets` are required exactly for a one-time booking |
| Booking.OptionalFields | src/components/BookingPage.js:214-904 | `company`, `accessDetails` and `referralName` are never required, on any step |
| Booking.OptionalFieldsOfLastStep | src/components/BookingPage.js:738-904 | no required control of the last step is one of the optional fields |
| Booking.EmptyRequiredBlocks | src/components/BookingPage.js:107-111 | an empty required field blocks its step |
| Booking.FreshFormBlocked | src/components/BookingPage.js:185-195 | a fresh form can never leave step 1, because its first name is empty |
| Booking.WrittenAs | src/components/BookingPage.js:799 | the postal control with the `pattern` as the page writes it; every other control unchanged |
| Booking.StepValidAsWritten | src/components/BookingPage.js:100-114 | `validateCurrentStep` with the postal pattern as written; `AsWrittenDiffersOnlyOnLastStep` and `PostalAsWrittenBlocksSubmit` relate it to `StepValid` |
| Booking.AsWrittenDiffersOnlyOnLastStep | src/components/BookingPage.js:738-904 | every step but the last validates the same with either postal pattern |
| Booking.PostalAsWrittenBlocksSubmit | src/components/BookingPage.js:797-799 | with the pattern as written, a code of the intended shape keeps the last step from validating |
| Booking.CheckControls | src/components/BookingPage.js:106-113 | the scan answers true iff every control passes, stopping at the first required control that is invalid |
| Booking.BookingPage.constructor | src/components/BookingPage.js:11-65 | the page starts on step 1 with the initial form data |
| Booking.BookingPage.HandleInputChange | src/components/BookingPage.js:70-96 | the form data becomes the reducer's result |
| Booking.BookingPage.ValidateCurrentStep | src/components/BookingPage.js:100-114 | the answer is true iff every required control of the current step is valid |
| Booking.BookingPage.GoNext | src/components/BookingPage.js:116-120 | the step advances, up to the last, exactly when the current step validates |
| Booking.BookingPage.GoPrev | src/components/BookingPage.js:122-125 | the step goes back one, down to the first, without validation |
| Booking.BookingPage.HandleSubmit | src/components/BookingPage.js:127-136 | a valid step resets the form and returns to step 1; an invalid one changes nothing |
| VersionAssets.ShouldEdit | scripts/versionAssets.js:36-38 | the file name ends in `.html`, `.css` or `.js` |
| VersionAssets.ShouldEditSpec | scripts/versionAssets.js:36-38 | every file name ending in `.html`, `.css` or `.js` is edited, whatever precedes the suffix |
| VersionAssets.ShouldEditExamples | scripts/versionAssets.js:36-38 | HTML and JavaScript bundles are edited; source maps and JSON manifests are not |
| VersionAssets.PathRun | scripts/versionAssets.js:42 | the greedy `[\w\-./]+` run: every character in it is a path character and the next one is not |
| VersionAssets.QueryRun | scripts/versionAssets.js:42 | the greedy `[^\s"')]*` run: every character in it is a query character and the next one is not |
| VersionAssets.FindStem | scripts/versionAssets.js:42 | backtracking picks the longest name after which `.avif` or `.webp` follows, and no longer one qualifies |
| VersionAssets.MatchAt | scripts/versionAssets.js:42 | a match is at least `/images/x.avif` long and lies within the text |
| VersionAssets.MatchAtSpec | scripts/versionAssets.js:42 | a match is an image URL followed by a query group; the name is the longest the text allows and the query runs as far as it can |
| VersionAssets.NoMatchWithoutPrefix | scripts/versionAssets.js:42 | no match starts where the text does not start with `/images/` |
| VersionAssets.Scan | scripts/versionAssets.js:42-43 | the global search split into matches and copied characters; `ScanRoundTrip` and `ScanLinks` state it |
| VersionAssets.ScanRoundTrip | scripts/versionAssets.js:42-43 | the global search loses nothing: its plain characters and matches spell the text back |
| VersionAssets.ScanLinks | scripts/versionAssets.js:42-43 | every match the global search finds has the expression's shape |
| VersionAssets.RewriteLink | scripts/versionAssets.js:43-47 | the replacement keeps the matched URL and query in front; a versioned query is left as is, any other gets a version |
| VersionAssets.RewriteBareUrl | scripts/versionAssets.js:45-46 | a match without a query gets `?v=<id>` |
| VersionAssets.RewriteQueriedUrl | scripts/versionAssets.js:44-46 | a match whose query has no `?v=` or `&v=` gets `&v=<id>` after the query |
| VersionAssets.Render | scripts/versionAssets.js:43-47 | each match replaced by the callback's result and other text copied; `RenderPlain` and `RenderExtends` state it |
| VersionAssets.RenderPlain | scripts/versionAssets.js:43 | text outside matches is copied unchanged |
| VersionAssets.RenderExtends | scripts/versionAssets.js:43-47 | the rewrite only ever adds text, and adds none when every match is already versioned |
| VersionAssets.OutLink | scripts/versionAssets.js:43-47 | a match at the start is replaced and the search goes on after it |
| VersionAssets.OutPlain | scripts/versionAssets.js:43 | where no match starts, the first character is copied and the search goes on at the next one |
| VersionAssets.VersionUrls | scripts/versionAssets.js:40-48 | render after scan; `NoImagesUnchanged`, `OutputIsVersioned` and `VersionUrlsIdempotent` state it |
| VersionAssets.NoImagesUnchanged | scripts/versionAssets.js:40-48 | text in which `/images/` never occurs is returned unchanged |
| VersionAssets.OutputIsVersioned | scripts/versionAssets.js:43-47 | every match a second pass finds in the output already carries a version |
| VersionAssets.VersionUrlsIdempotent | scripts/versionAssets.js:40-48 | rewriting twice with the same build id gives the same text as rewriting once |
| VersionAssets.HasVersion | scripts/versionAssets.js:44 | `/([?&])v=/` finds `v=` right after a `?` or `&` in the query |
| VersionAssets.NoVersionWithoutV | scripts/versionAssets.js:44 | a query without the letter `v` carries no version |
| VersionAssets.VersionUrlsExample | scripts/versionAssets.js:44-46 | a bare URL gets `?v=abc`, a URL with `?w=2` gets `&v=abc`, and one with `?v=1` is kept |
| OptimizeImages.NormalizeSlashes | scripts/optimizeImages.js:28 | every backslash becomes `/` and every other character is kept, so the length is unchanged |
| OptimizeImages.NormalizeSlashesSpec | scripts/optimizeImages.js:28 | no backslash is left, and normalising again changes nothing |
| OptimizeImages.WebpListed | scripts/optimizeImages.js:30-32 | the allow-list regular expression on the normalised path; `WebpListedMatchesPattern` and `WebpListedIgnoresCase` state it |
| OptimizeImages.ShouldAlsoWebp | scripts/optimizeImages.js:27-33 | a gallery path or an allow-listed file; `GalleryAlwaysWebp` and `ShouldAlsoWebpSeparators` state it |
| OptimizeImages.WebpFileSpec | scripts/optimizeImages.js:30 | reading the base name at its last dot agrees with the pattern's alternation of listed names and `png`, `jpg`, `jpeg` |
| OptimizeImages.WebpListedMatchesPattern | scripts/optimizeImages.js:30-32 | the allow-list test holds exactly when the case-insensitive regular expression matches somewhere in the path |
| OptimizeImages.GalleryAlwaysWebp | scripts/optimizeImages.js:28-29 | any file under `/public/images/gallery/`, written with either separator, gets a WebP copy |
| OptimizeImages.ShouldAlsoWebpSeparators | scripts/optimizeImages.js:28 | the decision does not depend on which separator the path uses |
| OptimizeImages.WebpListedIgnoresCase | scripts/optimizeImages.js:30 | the allow-list ignores letter case |
| OptimizeImages.ValidSrcExtExact | scripts/optimizeImages.js:35 | membership is exact: `.png` and `.JPEG` are converted, `.PNG`, `.Jpg`, `.avif` and no extension are not |
| OptimizeImages.ExtName | scripts/optimizeImages.js:63 | the extension is a suffix of the path that starts with its only dot and holds no separator; `ExtNameNonEmpty` says when it is non-empty |
| OptimizeImages.ExtNameNonEmpty | scripts/optimizeImages.js:63 | the extension is non-empty exactly when the final component has a dot after its first character and is not `..` |
| OptimizeImages.ExtNameExamples | scripts/optimizeImages.js:63 | `a/x.PNG` has extension `.PNG`; a dot in a directory name or a leading dot gives none |
| OptimizeImages.OutputNames | scripts/optimizeImages.js:63-68 | outputs exist iff the extension is accepted; then the base plus the extension is the source path and the outputs are `base.avif` and `base.webp` |
| OptimizeImages.ExtNameOfFile | scripts/optimizeImages.js:63-66 | for every `dir/name.ext` with a dot-free name and a dot-free extension, the extension found is `.ext` and what precedes it is `dir/name` |
| OptimizeImages.UnacceptedFileSkipped | scripts/optimizeImages.js:63-64 | every `dir/name.ext` whose extension is not one of the five accepted spellings is skipped; the test is case-sensitive, so `.PNG` and `.Jpg` are skipped |
| OptimizeImages.AcceptedFileConverted | scripts/optimizeImages.js:63-68 | any `dir/name.ext` with a dot-free name and an accepted extension is converted, with outputs `dir/name.avif` and `dir/name.webp` |
| OptimizeImages.VariantName | scripts/optimizeImages.js:95-101 | a variant name starts with `base-w` and ends with the format's extension |
| OptimizeImages.TargetWidthsAscending | scripts/optimizeImages.js:89 | the targets are listed from smallest to largest, up to 1920 |
| OptimizeImages.Below | scripts/optimizeImages.js:90 | the filter keeps exactly the widths below the source width |
| OptimizeImages.BelowAscending | scripts/optimizeImages.js:90 | the filter keeps the ascending order |
| OptimizeImages.EvenIndexed | scripts/optimizeImages.js:92 | every other element is kept, starting with the first |
| OptimizeImages.AllowedWidths | scripts/optimizeImages.js:89-92 | the target widths below the source width, every other one kept when there are more than eight; `AllowedWidthsSpec` states it |
| OptimizeImages.AllowedWidthsSpec | scripts/optimizeImages.js:89-92 | every variant width is a target below the source width, ascending, at most eight of them, and none when the width is unknown |
| OptimizeImages.EvenIndexedKeeps | scripts/optimizeImages.js:92 | thinning keeps the order and adds nothing |
| OptimizeImages.BelowPrefix | scripts/optimizeImages.js:90 | in an ascending list, the widths below a bound form a prefix |
| OptimizeImages.AllowedWidthsComplete | scripts/optimizeImages.js:90-92 | with at most eight candidates, every target below the source width is produced |
| OptimizeImages.AllowedWidthsSmallExample | scripts/optimizeImages.js:89-92 | a 100-pixel source gets the four smallest variants |
| OptimizeImages.AllowedWidthsLargeExample | scripts/optimizeImages.js:89-92 | a source wider than every target keeps every other one of the fourteen, from the smallest |
| OptimizeImages.BelowAllTargets | scripts/optimizeImages.js:89-90 | every target is a candidate for a source wider than 1920 pixels |
| OptimizeImages.IsNewer | scripts/optimizeImages.js:52-60 | the freshness rule: with both times known the output is stale when the source is more than one second newer, and a failed `stat` always counts as stale; its properties are `IsNewerMonotone`, `IsNewerTolerance` and `MissingAvifIsBuilt` |
| OptimizeImages.IsNewerMonotone | scripts/optimizeImages.js:56 | a stale output stays stale when the source is newer still or the output older still |
| OptimizeImages.IsNewerTolerance | scripts/optimizeImages.js:56 | of two files at most one is stale against the other, and neither is when they are within one second of each other |
| OptimizeImages.VariantPlan | scripts/optimizeImages.js:94-107 | per allowed width, the stale AVIF variant and, on the allow-list, the stale WebP variant |
| OptimizeImages.OutputPlan | scripts/optimizeImages.js:78-107 | the stale full-size outputs followed by the variants |
| OptimizeImages.ConvertPlan | scripts/optimizeImages.js:62-108 | nothing for an unaccepted extension, otherwise the output plan; `ConvertPlanNames` and the freshness lemmas state it |
| OptimizeImages.VariantPlanNames | scripts/optimizeImages.js:94-107 | every variant written is an output of the base, at most two per width |
| OptimizeImages.OutputPlanNames | scripts/optimizeImages.js:78-107 | every file written is an output of the base, at most two plus two per width |
| OptimizeImages.ConvertPlanNames | scripts/optimizeImages.js:62-108 | a file with another extension writes nothing; every file written is an output of the path minus its extension, WebP ones only on the allow-list |
| OptimizeImages.VariantPlanFresh | scripts/optimizeImages.js:94-107 | when every variant is fresh, no variant is rewritten |
| OptimizeImages.OutputPlanFresh | scripts/optimizeImages.js:78-107 | when every output is fresh, nothing is rewritten |
| OptimizeImages.MissingAvifIsBuilt | scripts/optimizeImages.js:78-81 | a full-size AVIF output whose `stat` fails is always built |
| OptimizeImages.SkipDir | scripts/optimizeImages.js:43-44 | a folder name starting with `_`, or with `backup` in any case |
| OptimizeImages.SkipDirSpec | scripts/optimizeImages.js:43-44 | a folder is skipped exactly when its name starts with `_` or its first six characters lower-case to `backup` |
| OptimizeImages.SkipDirBackup | scripts/optimizeImages.js:43-44 | a folder whose name starts with `backup` in any case is skipped |
| OptimizeImages.SkipDirKeepsGallery | scripts/optimizeImages.js:43-44 | the gallery folder is walked |
| OptimizeImages.Walk | scripts/optimizeImages.js:37-50 | the files of a tree in `readdirSync` order, skipping folders `SkipDir` names; `WalkSkips` and `WalkComplete` state it |
| OptimizeImages.WalkSkips | scripts/optimizeImages.js:37-50 | the walk never yields a file inside a skipped folder |
| OptimizeImages.WalkYieldsTopFiles | scripts/optimizeImages.js:46-47 | every file listed in the starting folder is yielded |
| OptimizeImages.WalkYieldsNested | scripts/optimizeImages.js:44-45 | every path yielded inside a folder the walk enters is yielded again with the folder's name in front |
| OptimizeImages.WalkComplete | scripts/optimizeImages.js:37-50 | every file of the tree whose folders are none of them skipped is yielded, with its full path |
| PurgeCloudflare.IndexOf | scripts/purgeCloudflare.js:32 | `indexOf` finds the first occurrence, and reports none only when the character does not occur |
| PurgeCloudflare.IndexOfAt | scripts/purgeCloudflare.js:32 | any occurrence with none before it is the one found |
| PurgeCloudflare.SplitOn | scripts/purgeCloudflare.js:87 | splitting gives at least one piece, and no piece holds the separator |
| PurgeCloudflare.JoinSplitOn | scripts/purgeCloudflare.js:87 | joining the pieces with the separator gives back the split string |
| PurgeCloudflare.SplitOnJoin | scripts/purgeCloudflare.js:87 | splitting a join of separator-free items gives back the items |
| PurgeCloudflare.TrimSnoc | scripts/purgeCloudflare.js:28-29 | trimming ignores one more trailing whitespace character, such as the CR of a CRLF line |
| PurgeCloudflare.TrimIsTrimmed | scripts/purgeCloudflare.js:88 | the trimmed form has no whitespace at its ends |
| PurgeCloudflare.TrimKeepsOut | scripts/purgeCloudflare.js:88 | trimming adds no character that was absent |
| PurgeCloudflare.Lines | scripts/purgeCloudflare.js:28 | `split(/\r?\n/)` as a split on LF followed by dropping one CR before each break |
| PurgeCloudflare.StripCr | scripts/purgeCloudflare.js:28 | a line is kept, or loses exactly one final carriage return |
| PurgeCloudflare.Unquote | scripts/purgeCloudflare.js:35-37 | an unquoted value is kept; a quoted one of two or more characters is the result wrapped in its quote character |
| PurgeCloudflare.ParseLine | scripts/purgeCloudflare.js:29-34 | a line yields an entry iff, once trimmed, it is non-empty, does not start with `#` and holds an `=`; the key never holds `=` |
| PurgeCloudflare.SplitEntry | scripts/purgeCloudflare.js:32-37 | a line is cut iff it holds an `=`, and the key is the part before the first one |
| PurgeCloudflare.SplitEntryAt | scripts/purgeCloudflare.js:32-37 | the key is the trimmed text before the first `=` and the value the unquoted, trimmed rest, further `=` signs included |
| PurgeCloudflare.PlainLine | scripts/purgeCloudflare.js:29-30 | a `KEY=value` line with a plain key passes the blank, comment and `=` filters |
| PurgeCloudflare.ParseLineRoundTrip | scripts/purgeCloudflare.js:27-37 | a written `KEY=value` line with a plain key and a trimmed, unquoted value parses back to that key and value |
| PurgeCloudflare.ParseLineQuoted | scripts/purgeCloudflare.js:35-37 | a value wrapped in matching double or single quotes loses exactly that layer and keeps everything between |
| PurgeCloudflare.ParseLineIgnoresCr | scripts/purgeCloudflare.js:28-29 | a CRLF line parses exactly like its LF form |
| PurgeCloudflare.Parsed | scripts/purgeCloudflare.js:27-31 | a file yields at most one entry per line; `ParsedAppend`, `ParsedComplete` and `ParsedSound` give the entries exactly, in order |
| PurgeCloudflare.Contribution | scripts/purgeCloudflare.js:30-37 | one line adds at most one entry |
| PurgeCloudflare.ParsedAppend | scripts/purgeCloudflare.js:27-31 | parsing works line by line: the entries of two runs of lines are those of each, in order |
| PurgeCloudflare.ParsedComplete | scripts/purgeCloudflare.js:30-37 | every line the filter accepts contributes its entry |
| PurgeCloudflare.ParsedSound | scripts/purgeCloudflare.js:30-37 | every entry comes from a line the filter accepts |
| PurgeCloudflare.Entries | scripts/purgeCloudflare.js:27-37 | the entries of a file: its lines parsed in order |
| PurgeCloudflare.Apply | scripts/purgeCloudflare.js:31-39 | the entries assigned in order, each only to an unset or empty variable; `ApplyKeepsSet`, `ApplyKeys`, `ApplyStaysEmpty` and `ApplyFirstWins` state it |
| PurgeCloudflare.ApplyKeepsSet | scripts/purgeCloudflare.js:38 | a variable that already holds a non-empty value is never overridden |
| PurgeCloudflare.ApplyKeys | scripts/purgeCloudflare.js:31-38 | afterwards the variables are the ones before plus every key the file names |
| PurgeCloudflare.ApplyStaysEmpty | scripts/purgeCloudflare.js:38 | a variable the file only gives empty values stays unset or empty |
| PurgeCloudflare.ApplyFirstWins | scripts/purgeCloudflare.js:38 | for an unset or empty variable, the first non-empty value in the file wins |
| PurgeCloudflare.ProcessEnv.constructor | scripts/purgeCloudflare.js:18-20 | the environment starts as the process's variables |
| PurgeCloudflare.ProcessEnv.SetIfUnset | scripts/purgeCloudflare.js:38 | a missing or empty variable takes the value; any other is kept |
| PurgeCloudflare.ProcessEnv.LoadDotEnv | scripts/purgeCloudflare.js:23-41 | the environment becomes the old one with the file's entries applied in file order, so the lemmas above hold of it |
| PurgeCloudflare.ProcessEnv.SetEach | scripts/purgeCloudflare.js:31-39 | the loop over the entries writes each in turn, as `Apply` specifies |
| PurgeCloudflare.EnvOr | scripts/purgeCloudflare.js:86 | the variable's value, or empty when it is unset, as `CF_PURGE_URLS` is read |
| PurgeCloudflare.NonBlank | scripts/purgeCloudflare.js:88-89 | every kept piece is non-empty and trimmed |
| PurgeCloudflare.NonBlankComplete | scripts/purgeCloudflare.js:88-89 | every piece with text in it is kept, trimmed |
| PurgeCloudflare.PurgeUrls | scripts/purgeCloudflare.js:86-89 | every purge URL is non-empty, trimmed and free of commas |
| PurgeCloudflare.PurgeUrlsComplete | scripts/purgeCloudflare.js:86-89 | every comma-separated piece with text in it becomes a purge URL |
| PurgeCloudflare.PurgeUrlsRoundTrip | scripts/purgeCloudflare.js:86-89 | a comma-joined list of trimmed, non-empty, comma-free URLs reads back as itself |
| PurgeCloudflare.PlanPurge | scripts/purgeCloudflare.js:84-111 | exit on a missing zone id, then on a missing token, otherwise post the purge request; `PlanNeedsCredentials`, `RequestReadsBack` and `RequestBody` state it |
| PurgeCloudflare.PlanNeedsCredentials | scripts/purgeCloudflare.js:84-96 | a request is posted iff both the zone id and the token are set and non-empty; a missing zone id is reported first, then a missing token |
| PurgeCloudflare.RequestReadsBack | scripts/purgeCloudflare.js:107-111 | the path names the zone between `/client/v4/zones/` and `/purge_cache`, and the authorization is `Bearer` and the token; both read back unchanged |
| PurgeCloudflare.RequestBody | scripts/purgeCloudflare.js:98 | the body lists the URLs iff there are any, and purges everything otherwise |
| PurgeCloudflare.BlankUrlsPurgeEverything | scripts/purgeCloudflare.js:86-89 | an unset, empty or all-commas-and-blanks list yields no URL, so the whole zone is purged |
| PurgeCloudflare.Succeeded | scripts/purgeCloudflare.js:114 | the `ok` test on the status and parsed reply; `SucceededSpec` states it |
| PurgeCloudflare.SucceededSpec | scripts/purgeCloudflare.js:114 | success is exactly a 2xx status with a reply that is neither falsy nor an object whose `success` is `false` |
| PurgeCloudflare.EmptyOrTextReplySucceeds | scripts/purgeCloudflare.js:68-73 | an empty 2xx reply counts as success, and so does one that is not JSON |
| PurgeCloudflare.FalsyReplyFails | scripts/purgeCloudflare.js:114 | a reply that parses to `null`, `false`, `0` or `""` fails even with a 2xx status |
| Reviews.SplitWords | src/components/Reviews.js:28 | splitting on whitespace runs gives at least one piece, and no piece holds whitespace |
| Reviews.SplitWordsJoin | src/components/Reviews.js:28 | words joined by single blanks split back into the same words |
| Reviews.Initials | src/components/Reviews.js:26-31 | the avatar shows one or two characters, never none |
| Reviews.InitialsBlank | src/components/Reviews.js:27-29 | a missing, empty or all-blank name shows `?` |
| Reviews.InitialsOfWords | src/components/Reviews.js:27-31 | a name of words shows the upper-cased first letter of its first word and, for two or more words, of its last word |
| Reviews.InitialsSingleWord | src/components/Reviews.js:28-30 | a one-word name shows exactly one character |
| Reviews.ShowText | src/components/Reviews.js:40-41 | the trimmed text is non-empty and does not start with the placeholder in any case |
| Reviews.ShowTextBlank | src/components/Reviews.js:40-41 | no text, or only blanks, shows nothing |
| Reviews.ShowTextPlain | src/components/Reviews.js:40-41 | text that does not open with `[` once trimmed is shown |
| Reviews.HidesPlaceholder | src/components/Reviews.js:40-41 | the `[no written review provided]` placeholder in any letter case, after any leading blanks and before anything, hides the text |
| Reviews.Stars | src/components/Reviews.js:56-58 | five stars are drawn, and star i is filled iff i is below the rating |
| Reviews.StarsFilledPrefix | src/components/Reviews.js:56-58 | the filled stars form a prefix of the row |
| Reviews.StarsFilledCount | src/components/Reviews.js:56-58 | as many stars are filled as the rating, clamped to 0..5 |
| Reviews.Insert | src/components/Reviews.js:9 | inserting adds exactly the one review |
| Reviews.SortNewestFirst | src/components/Reviews.js:9 | the displayed list is a permutation of the raw reviews |
| Reviews.NewestFirst | src/components/Reviews.js:9 | every review is at least as recent as each later one, the order the comparator asks for |
| Reviews.InsertSorted | src/components/Reviews.js:9 | inserting into a newest-first list keeps it newest first |
| Reviews.SortNewestFirstSorted | src/components/Reviews.js:9 | the displayed list is ordered newest first |
| Reviews.InsertOnDate | src/components/Reviews.js:9 | inserting a review puts it before the earlier reviews of its own date |
| Reviews.SortNewestFirstStable | src/components/Reviews.js:9 | reviews of the same date keep their original order |

## Left out

- Network and transport: `fetch`, `navigator.sendBeacon`, `Blob`, `https.request` in `postJson`, and the PostHog `people.set` call in both trackers. Requests are recorded in a ghost log, and whether the beacon is available or accepted is a parameter.
- Timers: `debounce` and `sendDataDebounced` are about `setTimeout` scheduling. The trackers' own fallback `debounce` is the identity.
- Randomness, clocks and git: `getFormattedUserId`, the session-id generator and `getBuildId` (git or `Date.now`). The generated ids and the build id are parameters.
- Exceptions: the trackers' and `initSessionAndUtm`'s `try`/`catch` blocks swallow storage errors.
  - `Utilities.Browser.InitSessionAndUtm` models an unavailable session storage (nothing written) and per-key write failures (the `failing` set).
  - The trackers assume storage works.
- File system and process effects:
  - `run` of `scripts/versionAssets.js`: the `walkFiles` generator, reading and writing files, the `edited` counter and logging.
  - `convertOne`'s `sharp` conversions, `stat` calls and writes. The files it would write are computed as a list (`OptimizeImages.ConvertPlan`) from the source width and a map of output modification times. `run` and its `Promise.all` are left out.
  - `exitWithError`'s printing and `process.exit`, modelled as an `Exit` plan carrying the message.
  - The `require('dotenv')` path; only the fallback parser is modelled.
  - Reading `.env` from disk: the parser takes the file content.
- `postJson` transport: the status code is an integer. `JSON.parse` is an oracle: the parsed reply, or none when parsing throws. The job-id logging after success is left out.
- Browser validation: `checkValidity` is modelled for the constraints the booking controls carry (presence, the phone and postal patterns, whole-number ranges). `reportValidity`, `scrollToTop` and the submit `alert` are left out.
- Booking.BookingPage.ValidateCurrentStep: assumes the form and the current step's panel are mounted. The source answers `true` when `formRef.current` or the panel is missing.
- Booking.StepControls:
  - one control per radio or checkbox group;
  - `type="email"` format checking is not modelled, only presence;
  - number inputs are digit strings checked against `min`/`max` with `step="1"`, with no decimals, exponents or signs;
  - the `date` input is presence only.
- Booking patterns: both are read under the `u`-flag rules browsers used for the `pattern` attribute before the `v` flag. Under `v`-flag rules `[\d\s()\-]` and `[ -]` would be syntax errors, and the attribute would be ignored.
- Booking.BookingPage: the component validates the postal code with the corrected pattern (`PostalPattern`). The pattern as written is modelled on its own, by `StepValidAsWritten`, for the finding below.
- Gallery.Lightbox.constructor: the limit is a positive integer or absent. A negative or fractional `limit` makes `totalItems` negative or fractional in the source; that case is not modelled.
- Gallery.Lightbox.SetLimit: the same positive-limit restriction.
- Gallery: the body-overflow effect, listener registration as such, and class names are left out.
- Blog: the SEO block, the JSON-LD object, date formatting and the footer links are left out. Elements are an abstract datatype.
- Js.Lower: ASCII letters only. The regular expressions involved use `/i` without `u`, which never maps a non-ASCII letter onto ASCII, so the patterns are exact. `toLowerCase` of other text is not modelled.
- Js.Upper: ASCII letters only. `toUpperCase` of non-ASCII letters is not modelled.
- Reviews.Initials: upper-casing is ASCII only. `'ß'.toUpperCase()` is `"SS"`, which could make real initials three or four characters long. Astral-plane characters, where `charAt(0)` takes half a surrogate pair, are not modelled either.
- Reviews: ratings are integers, and dates are integer keys. An unparsable date gives `NaN`, which is not modelled. The masonry layout effect, the floating-point average and the summary are left out.
- OptimizeImages.ExtName: models Node's POSIX `path.extname` for paths without trailing separators.
- OptimizeImages: an unknown image width (`meta.width` missing or 0) is width 0. Modification times are integer milliseconds. The directory tree is a value.
- VersionAssets.VersionUrlsIdempotent: requires a build id made of query characters. A short git hash or a millisecond timestamp always is one. An id holding a quote, `)` or whitespace would end the query early on a second pass.
- PurgeCloudflare.ProcessEnv.LoadDotEnv: a line whose key is empty (`=value`) sets the variable named by the empty string. Node may refuse an empty variable name; a throw there would end the `forEach` early, and that case is not modelled.

## Findings

| source | as written | input that shows it | evidently intended | confidence | as-written member | corrected member |
|---|---|---|---|---|---|---|
| src/components/BookingPage.js:799 | `pattern="^[A-Za-z]\\d[A-Za-z][ -]?\\d[A-Za-z]\\d$"` in a JSX attribute string keeps both backslashes. The regular expression then demands a literal backslash followed by `d` in each digit position. | `L4M 1A1` is rejected and `L\dM \dA\d` accepted, so the last step cannot validate with a real postal code. This holds where the attribute compiles under `u`-flag rules; under `v`-flag rules `[ -]` is a syntax error, the attribute is ignored and any non-empty code passes | letter, digit, letter, an optional space or hyphen, digit, letter, digit | not executed | Booking.PostalAsWrittenBlocksSubmit | Booking.PostalPatternSeparators |
