# Social-media agency app: the list and text rules behind its screens

This project models the deterministic rules inside the event handlers of a social-media
agency web application. The rules come from five screens and one service:

- **Editorial planner** (`Planner`): a batch of AI-suggested post drafts. Drafts can be
  reordered by drag and drop, removed, edited field by field, and switched on and off per
  social platform. Saving turns every draft into a stored post. A "scheduled" target status
  is downgraded to "draft" when the draft's date is missing, is an Invalid Date, or lies in
  the past. Default values are filled in at the same time.
- **Approval workflow** (`Workflow`): a Kanban board. Posts are filtered by the selected
  client and split into the Draft, Review, Scheduled and Published columns. Dropping a card
  on a column gives that post the column's status.
- **Text-generation service** (`Gemini`): everything around the model call. This covers
  the demo texts returned without an API key and the templates returned when a call fails.
  It also covers the topic list normalised to exactly `count` entries, the clean-up of a
  single headline, and the payload cut out of a `data:` URL before it is attached.
- **Clients** (`Clients`): the brand form. Content pillars are typed as comma-separated
  text. Saving is refused without a name, an industry or a signed-in user. The id is kept
  on edit, and there is a placeholder logo. The screen also has the case-insensitive client
  search and the platform connection panel.
- **Post scheduling** (`PostScheduling`): the platform checklist and the caption fallback
  chain of the submit handler.

Supporting modules:

- `Seqs`: the order-preserving filter and the "remove if present, otherwise append" toggle
  that the screens share.
- `Text`: JavaScript's string built-ins as the handlers use them. This covers `trim` with
  ECMAScript white space, `split` on one character, `join`, `includes`, `toLowerCase`,
  `parseInt`, and `String(n)`.
- `JsDate`: the arithmetic of `new Date(y, m, d, h, min)`, including month carry, the
  reading of years 0–99 as 1900–1999, and the time-value range.

React state setters become return values. Each handler is a function or method from the
old state to the new one. Anything from outside the program is a parameter:

- the signed-in user's id;
- the current time and the local zone offset (`JsDate.Clock`);
- the answer of a `window.confirm`;
- the random part of a post id;
- whether an API key is configured;
- what the text-generation call returned (`TopicsReply`, `TextReply`);
- whether the scheduling callback resolved.

Form, drag-and-drop and edit state is imperative in the source, and so it is here:

- `Planner.HandleDrop` copies the draft list into an array and performs the two
  `splice` calls as shift loops (`CloseGap`, `OpenGap`). It is proved equal to the
  specification function `Planner.Moved`.
- `Planner.SaveBatchPosts` runs the save loop.
- `Gemini.PadTopics` is the `while` loop that pads the topic list.

The record types follow the code's usage and `Done Flow/done-flow/types.ts`. The root
`types.ts` disagrees with the code: its `PostStatus` has no "review" or "approved" value,
and its `Client` has no `industry` field. The model follows the code.

The application has no persistence code of its own: `services/firebase.ts` only initialises
the SDK (lines 4-14).

## Model

| member | source | states |
|---|---|---|
| Seqs.Filter | components/Workflow.tsx:26 | `filter` keeps exactly the elements that pass the test, and nothing else |
| Seqs.FilterCounts | components/Workflow.tsx:26 | every occurrence of a passing element is kept and none of a failing one |
| Seqs.FilterAppend | components/Workflow.tsx:26 | filtering a concatenation filters each part and keeps their order |
| Seqs.FilterKeepsAll | components/Workflow.tsx:25 | a test every element passes returns the list itself |
| Seqs.FilterSameTest | components/Clients.tsx:256-259 | two tests that agree on every element filter the same way |
| Seqs.Without | components/Planner.tsx:151 | `filter(p => p !== x)` removes every occurrence of x and keeps all other elements |
| Seqs.WithoutAbsent | components/Planner.tsx:151 | removing an absent element changes nothing |
| Seqs.Toggle | components/Planner.tsx:150-154 | after the toggle x is present iff it was absent, and every other element is present after iff it was before |
| Seqs.ToggleMembership | components/Planner.tsx:150-154 | after a toggle the element is present iff it was absent, and other elements are unaffected |
| Seqs.ToggleShape | components/Planner.tsx:150-154 | a present element is removed everywhere; an absent one is appended at the end with the prefix unchanged |
| Seqs.ToggleKeepsOthersInOrder | components/PostScheduling.tsx:24 | apart from the toggled element, the order of the others is unchanged |
| Seqs.ToggleTwice | components/PostScheduling.tsx:23-25 | toggling twice restores membership; an absent element restores the list exactly, a present one moves to the end |
| Text.TrimStart | components/Clients.tsx:191 | the result is a suffix, everything cut is white space, and it does not start with white space |
| Text.TrimEnd | components/Clients.tsx:191 | the result is a prefix, everything cut is white space, and it does not end with white space |
| Text.Trim | components/Clients.tsx:191 | `trim` leaves no white space at either end and never lengthens |
| Text.TrimSlice | components/Clients.tsx:191 | the trimmed string is a slice of the input and only white space is cut on either side |
| Text.TrimKeepsNonSpace | components/Clients.tsx:191 | every character of the input that is not white space survives `trim`, and nothing new appears |
| Text.TrimTrimmed | components/Clients.tsx:191 | a string without white space at its ends is unchanged by `trim` |
| Text.TrimIdempotent | services/geminiService.ts:243 | trimming twice is trimming once |
| Text.TrimAfterSpaces | components/Clients.tsx:191 | leading white space does not change the trimmed result |
| Text.LowerChar | components/Clients.tsx:257 | `toLowerCase` maps A–Z to a–z and leaves non-letters alone |
| Text.Lower | components/Clients.tsx:257 | lowercasing keeps the length and maps each character by `LowerChar` |
| Text.LowerIdempotent | components/Clients.tsx:257 | lowercasing twice is lowercasing once |
| Text.ContainsSpec | components/Clients.tsx:257 | `includes` holds iff the term occurs at some position |
| Text.ContainsEmpty | components/Clients.tsx:257 | every string includes the empty string |
| Text.Split | components/Planner.tsx:318 | `split` yields at least one piece and no piece contains the separator |
| Text.JoinSplit | components/Planner.tsx:318 | joining the pieces of a split with the separator gives the original string |
| Text.SplitAfterPiece | components/Clients.tsx:191 | a separator-free piece followed by the separator splits off as the first piece |
| Text.SplitWhole | services/geminiService.ts:91 | a string without the separator splits into itself |
| Text.SplitJoin | components/Planner.tsx:318-322 | splitting the join of separator-free parts gives the parts back |
| Text.SplitPart | components/Planner.tsx:318 | an indexed piece of a split never contains the separator |
| Text.DigitValue | components/Planner.tsx:319 | a character's digit value is below 10 iff it is a decimal digit |
| Text.DigitPrefix | components/Planner.tsx:319 | `parseInt` reads the longest prefix of digits valid in the radix |
| Text.DigitPrefixOfDigits | components/Planner.tsx:319 | a string of valid digits is read whole |
| Text.ParseInt | components/Planner.tsx:319 | `parseInt` of the empty string is `NaN` |
| Text.ParseIntOfDigits | components/Planner.tsx:319-324 | `parseInt` of a non-empty run of decimal digits is the number they denote |
| Text.ParseIntWithoutDigits | components/Planner.tsx:319-324 | `parseInt` of a string without any decimal digit is `NaN` |
| Text.ParseIntSkipsSpace | components/Planner.tsx:319-324 | leading white space does not change what `parseInt` reads |
| Text.ParseIntNegative | components/Planner.tsx:319-324 | a minus sign before decimal digits gives the negated value |
| Text.ParseIntHex | components/Planner.tsx:319-324 | `0x` followed by hexadecimal digits is read in radix 16 |
| Text.NatToString | components/Planner.tsx:312 | `String(n)` of a natural number is a non-empty run of decimal digits |
| Text.NatToStringValue | components/Planner.tsx:312 | the digits of `String(n)` have the value n |
| Text.NatToStringInjective | components/Clients.tsx:194 | different numbers are written differently |
| Text.ParseNatToString | components/Planner.tsx:319 | `parseInt(String(n))` is n |
| Text.RemoveSpaces | services/geminiService.ts:20 | `replace(/\s/g, '')` leaves no white space and keeps every other character |
| JsDate.MonthCarries | components/Planner.tsx:320-325 | month 12 of a year is month 0 of the next, as `new Date` carries months |
| JsDate.Epoch | components/Planner.tsx:325 | day 0 of the calendar is 1 January 1970 |
| JsDate.NextDay | components/Planner.tsx:325 | consecutive days of a month get consecutive day numbers |
| JsDate.MarchToMarch | components/Planner.tsx:325 | a year counted from 1 March has 366 days iff the next February is a leap February, otherwise 365 |
| JsDate.NextMonth | components/Planner.tsx:325 | the first of month m+1 is the first of month m plus the length of month m, leap Februaries included |
| JsDate.NextYear | components/Planner.tsx:325 | 1 January follows 1 December of the year before by 31 days |
| JsDate.MakeDayInYear | components/Planner.tsx:325 | for a month 0-11 the day number is the calendar's day of the first of that month plus the date less one |
| JsDate.FullYear | components/Planner.tsx:325 | a year 0-99 means 1900-1999; any other year is itself |
| JsDate.TwoDigitYears | components/Planner.tsx:325 | for a year y of 0-99, `new Date(y, …)` equals `new Date(1900 + y, …)` |
| JsDate.NewYear2024 | components/Planner.tsx:325 | midnight of 1 January 2024 is 1704067200000 ms in UTC, and three hours later in a zone three hours behind |
| JsDate.LastDayOf99 | components/Planner.tsx:325 | 31 December of year 99 is 31 December 1999, 946598400000 ms |
| JsDate.EpochMorning | components/Planner.tsx:325 | hours and minutes count from midnight: 10:30 on 1 January 1970 is 37800000 ms |
| JsDate.FarFutureIsInvalid | components/Planner.tsx:325-327 | the year 300000 is outside the time range, so the date is invalid |
| JsDate.LocalDate | components/Planner.tsx:325-327 | `new Date(y, m, d, h, min)` is valid iff its local time less the zone offset lies within ±8.64e15 ms, and then it is that value |
| Planner.Read | components/Planner.tsx:136 | reading a field returns a value for that same field |
| Planner.FieldsDetermineDraft | components/Planner.tsx:18-30 | two drafts that agree on every field are equal |
| Planner.Apply | components/Planner.tsx:138 | the named field takes the value and every other field is unchanged |
| Planner.UpdateDraft | components/Planner.tsx:136-140 | only draft `index` changes, and in it only the named field; the length is kept |
| Planner.UpdateWithSameValue | components/Planner.tsx:136-140 | writing a field's current value back changes nothing |
| Planner.SameFieldRead | components/Planner.tsx:138 | two updates naming the same field read the same value |
| Planner.RemoveDraft | components/Planner.tsx:142-145 | an index that addresses a draft removes exactly that draft, keeping the others in order; any other index changes nothing |
| Planner.RemoveDraftSpec | components/Planner.tsx:142-145 | removing draft i removes exactly it, keeps the others in order, and changes nothing for an index out of range |
| Planner.Moved | components/Planner.tsx:277-281 | the move keeps the length and puts the dragged draft at the drop index |
| Planner.MovedSpec | components/Planner.tsx:278-281 | a move keeps the length and the multiset of drafts, puts the dragged draft at the drop index, and keeps the others in relative order |
| Planner.MovedInPlace | components/Planner.tsx:277-281 | moving a draft to its own position changes nothing |
| Planner.HandleDrop | components/Planner.tsx:275-283 | no dragged draft, or a drop where it was, leaves the list and drag state alone; otherwise the in-place splices produce exactly `Moved` and clear the drag state |
| Planner.SplicesMove | components/Planner.tsx:279-280 | taking the draft out and inserting it at the drop index is `Moved` |
| Planner.CloseGap | components/Planner.tsx:279 | `splice(from, 1)`: the first n-1 slots hold the list without slot `from` |
| Planner.OpenGap | components/Planner.tsx:280 | `splice(to, 0, x)`: the front up to `to` is unchanged and the rest is shifted one place right |
| Planner.TogglePlatform | components/Planner.tsx:147-156 | the draft's platforms are toggled, every other field and every other draft is unchanged |
| Planner.DateTimeParts | components/Planner.tsx:317-324 | an empty date yields no numbers |
| Planner.FromFields | components/Planner.tsx:319-325 | the date arguments exist iff all five numbers were read, and then they are those numbers in order with the month less one |
| Planner.DraftClockTime | components/Planner.tsx:322 | the time used is never empty: the draft's time, or '10:00' when it is empty |
| Planner.DraftDateParts | components/Planner.tsx:317-324 | a draft without a date yields no numbers |
| Planner.DraftTime | components/Planner.tsx:317-327 | a draft without a date has no time, and a valid time lies within the time range |
| Planner.FieldsSplit | components/Planner.tsx:318-322 | `Y-M-D` splits on '-' into its three fields and `H:MIN` on ':' into its two |
| Planner.FieldRead | components/Planner.tsx:319-324 | a piece of decimal digits is read as the number it denotes |
| Planner.DateTimeOfDigits | components/Planner.tsx:318-325 | a well-formed `Y-M-D` date and `H:MIN` time give the arguments (Y, M-1, D, H, MIN) |
| Planner.DefaultClockTime | components/Planner.tsx:322 | the default '10:00' consists of the decimal fields 10 and 00 |
| Planner.DraftDateOfDigits | components/Planner.tsx:317-325 | a draft with a well-formed date, and a well-formed or empty time, yields (Y, M-1, D, H, MIN), with 10:00 for an empty time |
| Planner.DraftTimeOfDigits | components/Planner.tsx:317-325 | such a draft is saved for exactly `new Date(Y, M-1, D, H, MIN)` in the local zone |
| Planner.Schedule | components/Planner.tsx:314-340 | the status is the target or draft; a scheduled post is not before now; a draft with a valid local time is saved for that time whatever the target, including a downgraded past date; otherwise the date is now |
| Planner.ScheduleStatus | components/Planner.tsx:314-340 | draft and review targets are kept; a scheduled target becomes draft iff the date is empty, invalid or earlier than now |
| Planner.ScheduledPostsAreInTheFuture | components/Planner.tsx:315-340 | a post saved as scheduled has a valid date not before now; a missing or invalid date becomes now |
| Planner.SavedPostDefaults | components/Planner.tsx:342-352 | an empty title becomes 'Post Sem Título' and a given one is kept; a missing image becomes ''; the content is kept; an empty platform list becomes [Instagram] and a given one is kept; id, client and author 'IA Planner' are set |
| Planner.SavedPost | components/Planner.tsx:342-352 | the post has the given id and client, author 'IA Planner', and the date and status of `Schedule` |
| Planner.PostIdsDiffer | components/Planner.tsx:312 | two ids with stamps of the same length and different indices differ, since the index suffix tells them apart |
| Planner.IsBusy | components/Planner.tsx:292 | the scan reports busy iff some draft is still generating |
| Planner.SaveEach | components/Planner.tsx:310-355 | exactly one post per draft, in list order, the i-th built from the i-th draft |
| Planner.SaveBatchPosts | components/Planner.tsx:285-355 | nothing is saved without a user, after a declined busy confirmation, or for an empty list; otherwise one post per draft in order |
| Workflow.FilterByClient | components/Workflow.tsx:24-27 | no client selected keeps every post; otherwise exactly the selected client's posts |
| Workflow.FilterByClientKeepsOrder | components/Workflow.tsx:24-27 | the client filter keeps the original order |
| Workflow.ColumnPosts | components/Workflow.tsx:101 | a column holds exactly the filtered posts with its status |
| Workflow.ColumnsAreDisjoint | components/Workflow.tsx:17-22 | no post shows in two columns |
| Workflow.ApprovedPostsAreHidden | components/Workflow.tsx:17-22 | an approved post shows in no column |
| Workflow.ColumnSize | components/Workflow.tsx:101 | a column's size is the number of posts with its status |
| Workflow.CountsAddUp | components/Workflow.tsx:17-22 | the counts of the five statuses add up to the number of posts |
| Workflow.ColumnsPartition | components/Workflow.tsx:100-101 | the four columns plus the approved posts account for every filtered post |
| Workflow.SetStatus | components/Workflow.tsx:43-48 | the status update keeps the length |
| Workflow.HandleDrop | components/Workflow.tsx:39-52 | no dragged id changes nothing; otherwise the dragged posts take the new status and keep every other field, all other posts are identical, and the drag is cleared |
| Workflow.SetStatusSpec | components/Workflow.tsx:43-48 | position by position: matching posts get the status and nothing else, others are unchanged |
| Workflow.DropWithoutDragIsNoOp | components/Workflow.tsx:41 | a drop with no dragged id, or an empty one, leaves the posts alone |
| Workflow.DropIdempotent | components/Workflow.tsx:43-48 | the same drop twice equals once |
| Workflow.DropUndo | components/Workflow.tsx:43-48 | dropping a card back on its original column restores the posts |
| Workflow.SetStatusAppend | components/Workflow.tsx:43-48 | the status update works element by element over a concatenation |
| Workflow.DropCommutesWithClientFilter | components/Workflow.tsx:24-48 | filtering after a drop equals dropping on the filtered board |
| Workflow.DroppedPostLandsInColumn | components/Workflow.tsx:39-101 | after a drop, the dragged post appears in the target column of the filtered board |
| Gemini.FallbackTopics | services/geminiService.ts:169-172 | exactly `count` entries (none for a negative count); entry i is 'Post sobre <industry> <i+1>' |
| Gemini.FallbackTitlesDistinct | services/geminiService.ts:170 | the fallback titles are pairwise distinct |
| Gemini.SliceEnd | services/geminiService.ts:230 | `slice(0, end)` stops at `end` clipped to the length, counting from the back for a negative end |
| Gemini.PadTopics | services/geminiService.ts:224-230 | for `count >= 0`, the reply's topics first, then 'Ideia Extra para <name>' entries, exactly `count` in all; a negative count drops that many from the back |
| Gemini.NormalisedLength | services/geminiService.ts:224-230 | the normalised list has exactly `count` entries |
| Gemini.NormalisedTruncates | services/geminiService.ts:230 | a long reply is cut to its first `count` topics, in order |
| Gemini.NormalisedPads | services/geminiService.ts:225-228 | a short reply is kept at the front and followed only by extras |
| Gemini.GeneratePostTopics | services/geminiService.ts:168-235 | no key, a failed call or an unparseable reply yields the fallback list; a parsed reply is normalised to `count` |
| Gemini.TopicCount | services/geminiService.ts:168-235 | whatever the reply, a non-negative `count` gives exactly `count` topics |
| Gemini.CleanHeadline | services/geminiService.ts:243 | no quote characters, no surrounding white space, every other character is kept, and the result is a slice of the unquoted text with only white space cut on either side |
| Gemini.Unquoted | services/geminiService.ts:243 | `replace(/['"]/g, '')` leaves no quote and keeps every other character |
| Gemini.CleanHeadlineIdempotent | services/geminiService.ts:243 | cleaning a clean headline changes nothing |
| Gemini.GenerateSingleTopic | services/geminiService.ts:238-247 | never empty; 'Ideia sobre <industry>' without a key or for an empty cleaned reply, 'Ideia Criativa' on failure, otherwise the cleaned reply |
| Gemini.GeneratedHeadlineIsClean | services/geminiService.ts:243 | a headline from the service has no quotes and no surrounding white space |
| Gemini.Payload | services/geminiService.ts:91 | the payload is empty only for an empty input, and is either the input or comma-free |
| Gemini.PayloadWithoutComma | services/geminiService.ts:91 | raw base64 without a comma is sent as it is |
| Gemini.PayloadOfDataUrl | services/geminiService.ts:62 | `header,body` yields body |
| Gemini.PayloadOfEmptyBody | services/geminiService.ts:62 | `header,` with an empty body is sent whole |
| Gemini.PayloadIsSecondSegment | services/geminiService.ts:62 | for a comma-free header and a non-empty comma-free body, followed by nothing or by a comma and anything, the payload is the body |
| Gemini.DemoCaption | services/geminiService.ts:18-21 | the demo caption ends with '#' and the industry with all white space removed |
| Gemini.BrandbookAttachment | services/geminiService.ts:61-70 | a brandbook is attached iff the client has one, and its payload is non-empty |
| Gemini.GenerateCaption | services/geminiService.ts:12-85 | never empty; the demo caption without a key, the failure template on a throw, the reply's text or the apology |
| Gemini.GenerateCaptionFromImage | services/geminiService.ts:87-119 | never empty; fixed text without a key, a template around the context on a throw, the reply's text or the apology |
| Clients.ResetForm | components/Clients.tsx:87-109 | a reset form has an empty name, an empty industry and no platforms |
| Clients.OpenEditForm | components/Clients.tsx:111-143 | the form shows the client's name, industry, logo and platforms, its pillars joined with ', ', and its colour, style and tone, or non-empty defaults where they are empty |
| Clients.Pillars | components/Clients.tsx:191 | every pillar is non-empty and trimmed |
| Clients.ParsePillars | components/Clients.tsx:191 | every parsed pillar is non-empty and has no surrounding white space |
| Clients.ParsedPillarsAreClean | components/Clients.tsx:191 | parsed pillars contain no comma either |
| Clients.PillarsOfCommaFree | components/Clients.tsx:191 | comma-free pieces give comma-free pillars |
| Clients.FirstPillarFirst | components/Clients.tsx:191 | the pillars follow the input's order: the first piece's pillar comes first |
| Clients.PillarsCons | components/Clients.tsx:191 | the pieces are trimmed and filtered one at a time, in order |
| Clients.SinglePillar | components/Clients.tsx:191 | a clean piece is its own single pillar |
| Clients.LeadingBlankIgnored | components/Clients.tsx:191 | a blank after a comma does not change the pillars |
| Clients.NoPillars | components/Clients.tsx:191 | empty input gives no pillars |
| Clients.PillarsRoundTripStep | components/Clients.tsx:191 | the round trip extends from the tail to the whole list |
| Clients.PillarsRoundTrip | components/Clients.tsx:137 | joining clean pillars with ', ' and parsing them again gives the same pillars |
| Clients.JoinWithBlank | components/Clients.tsx:137 | `join(', ')` puts a comma and a blank before each later pillar |
| Clients.PlaceholderLogo | components/Clients.tsx:183 | the placeholder picture is seeded with exactly the client's name |
| Clients.PlaceholderLogosDiffer | components/Clients.tsx:183 | clients with different names get different placeholder logos |
| Clients.SaveClient | components/Clients.tsx:177-225 | nothing is saved iff the name, industry or user is empty; the edited client's id and next post are kept, a new client's id is the current time; the logo falls back to the placeholder; the client is active, with parsed pillars and the selected platforms |
| Clients.NewClientIdsDiffer | components/Clients.tsx:194 | clients created at different times get different ids |
| Clients.EditWithoutChangesKeepsClient | components/Clients.tsx:111-143 | opening a client for editing and saving unchanged gives the same client, marked active |
| Clients.ResetFormIsNotSaved | components/Clients.tsx:179 | a freshly reset form cannot be saved |
| Clients.FilterClients | components/Clients.tsx:256-259 | a client is kept iff its lowercased name or industry includes the lowercased term |
| Clients.EmptySearchKeepsAll | components/Clients.tsx:256-259 | an empty search keeps every client in order |
| Clients.SearchIgnoresTermCase | components/Clients.tsx:257 | the search term's case does not matter |
| Clients.SearchKeepsOrder | components/Clients.tsx:256 | the search keeps list order |
| Clients.OpenConnect | components/Clients.tsx:145-148 | the panel opens with the client's platforms and no pending connection |
| Clients.TogglePlatform | components/Clients.tsx:235-246 | a connected platform is removed at once and nothing else changes, spinner and timers included; an unconnected one gets the spinner and a pending timer, with the selection unchanged |
| Clients.TimerFiresAsWritten | components/Clients.tsx:239-242 | the timer appends its platform whether or not it is already selected |
| Clients.DoubleClickConnectsTwice | components/Clients.tsx:235-242 | two clicks before the timer fires connect the platform twice |
| Clients.TimerFires | components/Clients.tsx:239-242 | corrected: the timer connects its platform, with selection membership exactly old plus that platform |
| Clients.PanelKeepsNoDuplicates | components/Clients.tsx:235-246 | with the corrected timer, toggling and timers keep the selection free of duplicates |
| Clients.WithoutKeepsNoDuplicates | components/Clients.tsx:244 | a disconnect keeps a duplicate-free selection duplicate-free |
| Clients.SaveConnections | components/Clients.tsx:248-254 | saved iff a client is open and a user is signed in; only `connectedPlatforms` changes |
| Clients.OpenThenSaveKeepsClient | components/Clients.tsx:248-254 | opening the panel and saving without toggling stores the client unchanged |
| PostScheduling.InitialForm | components/PostScheduling.tsx:14-17 | the form opens with an empty caption, not submitting, Instagram and TikTok selected |
| PostScheduling.TogglePlatform | components/PostScheduling.tsx:22-26 | a selected platform is removed with the others in order; an unselected one is appended; nothing else changes |
| PostScheduling.TogglePlatformTwice | components/PostScheduling.tsx:23-25 | toggling twice restores membership, and restores the list exactly for an unselected platform |
| PostScheduling.SubmittedCaption | components/PostScheduling.tsx:31 | never empty; the typed caption, else a non-empty AI caption, else 'Post sem legenda' |
| PostScheduling.HandleSubmit | components/PostScheduling.tsx:28-34 | sends the caption chain, date and platforms; on success the caption is cleared and submitting ends; on rejection both stay |
| PostScheduling.SubmitAgainUsesFallback | components/PostScheduling.tsx:31-33 | after a completed submit the next one falls back as if no caption had been typed |

## Left out

- Store writes (`savePostToFirestore`, `saveClientToFirestore`, `deleteClientFromFirestore`), `onSnapshot` listeners and navigation after saving are I/O. A saved post or client is returned instead of written.
- Planner.SaveBatchPosts: a store write that fails part-way through the loop (leaving earlier posts saved and showing an alert) is not modelled. The clock is read once per batch rather than once per draft, and the 500 ms pause before saving is left out.
- The text-generation calls, prompt templating and `JSON.parse` are foreign code. Their outcome is a parameter. A reply that parses to a JSON value other than a list of topics is not modelled.
- `generateSmartDates`, `handleStartBatch`, `regenerateTopic`, `generateDraftCaption` and `handleBulkGenerateCaptions` (components/Planner.tsx:48-265) are not modelled. They are asynchronous updates of the draft list around service calls, and the first one depends on `Math.random`.
- `analyzeInsights` and `analyzeCompetitorInsights` (services/geminiService.ts:121-161) return fixed texts or a service reply and are not modelled.
- File uploads (`FileReader`), `handleDeleteClient`, `handleAiCaption` and `handleAiArt` are not modelled. They are I/O, or they copy a callback's result into one field.
- Clients.TogglePlatform: a timer that fires after the connection panel was closed, or reopened for another client, is not modelled. Pending timers start empty each time the panel opens.
- Planner.HandleDrop requires both indices to address drafts, as the rendered cards guarantee. `splice` with an out-of-range index is not modelled.
- Planner.UpdateDraft and Planner.TogglePlatform require an index that addresses a draft, as the rendered cards guarantee. Writing past the end of the list is not modelled.
- Text.LowerChar maps only ASCII and Latin-1 upper-case letters. Unicode case mapping beyond Latin-1 is not modelled.
- JsDate.LocalDate treats the local zone offset as one constant. Daylight-saving changes are not modelled.
- Numbers are unbounded integers. Double-precision rounding of very large parsed numbers (beyond 2^53) is not modelled.
- Post ids: the `Date.now()` and `Math.random()` part is a parameter (`stamp`).

## Findings

| source | as written | input that shows it | evidently intended | confidence | as-written member | corrected member |
|---|---|---|---|---|---|---|
| components/Clients.tsx:235-242 | the Connect button stays enabled while its one-second timer runs, and the timer appends the platform without checking the selection | two clicks on an unconnected platform within one second, then both timers fire: the selection becomes [Instagram, Instagram] | a platform is connected at most once | medium, not executed | Clients.DoubleClickConnectsTwice | Clients.PanelKeepsNoDuplicates |
