# kobudo-app core, modelled in Dafny

kobudo-app is a Korean-learning app. Its translation flashcards are kept in
one JSON list under one key of the device's key–value store. So are its
collections and its grammar concepts. This project models:

- **Cards** (`cards.dfy`): the card table.
  - Adding one card or a bulk of them, editing texts and tag, and deleting.
  - The review rule, a reduced SuperMemo-2 with a correct/incorrect outcome:
    the review count, the interval in days, and the ease factor with its
    floor of 1.3.
  - The due-card query: never-scheduled cards first, then by next review.
  - The per-collection review status: total, due, and the next review date.
  - The store itself is a class, `CardStore`. Its field `blob` is the stored
    list, or nothing when the key was never written.
- **Collections** (`collections.dfy`): creating collections, listing them
  newest first, and deleting one. Deleting a collection first detaches its
  cards and then removes the collection.
- **Grammar** (`grammar.dfy`): the grammar-concept list. Reading it
  (`getGrammarConcepts`) is `GrammarStore.Concepts`; nothing stored reads as
  empty (utils/database/grammar.ts:15-18). Delete and update act on the first
  concept with the id, and write nothing when there is none.
- **Session** (`session.dfy`): the card-review session of the older test
  screen. It holds the due list, a position and a loading flag. Reviewing
  records the outcome and moves on. After the last card the due list is
  loaded again.
- **ObjectMarkers** (`object_markers.dfy`): the check that a Korean object
  marker fits the word before it. 을 goes after a final consonant and 를
  after a vowel. The final consonant comes from Hangul syllable arithmetic in
  section 3.12 ("Conjoining Jamo Behavior") of the Unicode Standard.
- `seqs.dfy` and `wrappers.dfy` are helpers. `IndexOf` is `findIndex`. `Filter` keeps order and
  multiplicity. `SortBy` is a stable insertion sort by an integer key.
  `Option` is the usual wrapper type.

### Units and representation

- **Time.** A timestamp is an integer number of milliseconds. A day is
  86 400 000 of them. Clock readings are parameters. Where the code reads
  the clock more than once, the model takes one parameter per reading: the
  bulk add takes one time per draft, creating a collection takes `idClock`
  for `Date.now()` and `now` for `new Date()`, and the session's reload
  after the last card takes its own `reloadNow`. The review rule is the one
  exception (see "## Left out"). Fresh UUIDs are parameters too.
- **Ease factor.** It is held in tenths: 2.5 is 25, 1.3 is 13, and the
  correct/incorrect steps are +1 and −2.
  - The code's `Math.round(interval * easeFactor)` becomes
    `RoundTenths(interval * ease) = (x + 5) / 10`. With floor division that
    equals `Math.round(x / 10)` for every integer.
  - A card stored without `reviewCount`, `interval` or `easeFactor` is read as
    0 in that field. The review treats 0 and missing alike (`!x`), and an
    ease of 0 starts from 2.5.
- **Strings.** The object-marker check works on UTF-16 code units, as
  JavaScript does. `trim` removes the units of ECMAScript's WhiteSpace and
  LineTerminator sets. `%` keeps the sign of the dividend, as in JavaScript
  (`JsRem28`).
- **Collection ids.** Listing and the due query filter by collection only
  when the id is truthy: present and not 0. The review status matches the id
  exactly.

### Behaviour worth noting

- The session has no error for a review without a current card and no
  separate finished state. Past the end of the list, a review does nothing. After the last
  card, the list is simply reloaded. The model follows the code.
- `useSpacedRepetition` imports `getDueCards` and `updateCardReview` from
  `utils/database/cards`, which in this repository defines neither. The
  session is therefore modelled against the functions of
  `database/tables/cards.ts`.
- The object-marker check has no Hangul range test. A word that trims to
  nothing takes 을: `charCodeAt` gives NaN and `NaN % 28 !== 0` holds. Any
  other last unit is judged by its offset from U+AC00 modulo 28, Hangul or
  not.

## Model

| member | source | states |
|---|---|---|
| Cards.NewCard | database/tables/cards.ts:55-65 | a new card is unreviewed (count 0, ease 2.5, interval 0, never scheduled), keeps the given id, texts, time and collection, and its tag defaults to Other |
| Cards.NewCards | database/tables/cards.ts:151-161 | bulk creation builds one new card per draft, in input order, each with its draft's collection, its own fresh id and its own creation time (one `new Date()` per draft) |
| Cards.NewCardsIds | database/tables/cards.ts:151-166 | the ids a bulk import returns (`Cards.Ids`, the `map` at line 166) are exactly the fresh ids in order, and every created card is unreviewed and well scheduled |
| Cards.Retext | database/tables/cards.ts:87-92 | an update keeps the list's length and every other field; cards with the id get the new texts and exactly the given tag (absent erases it); other cards are unchanged |
| Cards.WithoutCard | database/tables/cards.ts:129 | a delete leaves only cards without the id, each other card as often as before |
| Cards.WithoutAbsentCard | database/tables/cards.ts:129 | deleting an id that no card has changes nothing |
| Cards.WithoutCardConcat | database/tables/cards.ts:129 | deleting keeps relative order: it distributes over concatenation |
| Cards.RoundTenths | database/tables/cards.ts:206 | rounds a value in tenths to the nearest integer, halves up, as Math.round does |
| Cards.Review | database/tables/cards.ts:190-220 | one review: count +1, last review now, next review now plus interval days, ease at least 1.3 and +0.1 if correct or −0.2 if not; interval 1 then 6 then the rounded interval × ease when correct, and 1 when incorrect; every other field unchanged |
| Cards.ReviewWellScheduled | database/tables/cards.ts:196-215 | a review keeps counts and intervals non-negative and the ease missing or at least 1.3, and leaves an interval of at least one day |
| Cards.ReviewedNotDueUntilNext | database/tables/cards.ts:217-249 | a just-reviewed card is due exactly from its next review on, so it is not due at the time of that review |
| Cards.CorrectReviewGrows | database/tables/cards.ts:206-211 | from the third review on, a correct answer never shortens the interval |
| Cards.ReviewScenario | database/tables/cards.ts:196-220 | from a new card, correct, correct, incorrect gives (count, interval, ease) = (1, 1, 2.6), (2, 6, 2.7), (3, 1, 2.5) and a next review one day after the last |
| Cards.ThirdCorrectReview | database/tables/cards.ts:206-211 | a third correct review of a new card sets the interval to round(6 × 2.7) = 16 days |
| Cards.FailedFiveTimesThenCorrect | database/tables/cards.ts:200-215 | in exact tenths, five incorrect reviews of a new card leave ease 1.5 and interval 1, and three correct reviews then give intervals 2, 3 and 5 days with ease 1.6 and 1.7 along the way (the code's floats give 1, 2 and 3; see "## Left out") |
| Cards.ReviewWrongTimes | database/tables/cards.ts:212-215 | after any number of incorrect reviews the interval is 1 and the ease stays at least 1.3 |
| Seqs.IndexOf | database/tables/cards.ts:184-185 | findIndex: −1 exactly when no element matches, otherwise the index of the first match; used for cards here and for grammar concepts at utils/database/grammar.ts:36-38 and 52 |
| Cards.ReviewInList | database/tables/cards.ts:184-222 | only the first card with the id is reviewed; an unknown id leaves the list as it was |
| Cards.InCollection | database/tables/cards.ts:273-275 | exactly the cards whose collection equals the id, each as often as stored |
| Cards.AllCards | database/tables/cards.ts:100-116 | listing returns the cards in scope as a permutation, newest first |
| Cards.DueOnly | database/tables/cards.ts:243-249 | exactly the cards never scheduled or scheduled at or before now, each as often as stored |
| Cards.DueCards | database/tables/cards.ts:229-257 | exactly the due cards in scope with their multiplicities; never-scheduled cards before scheduled ones, scheduled ones by ascending next review |
| Cards.EarliestUpcoming | database/tables/cards.ts:283-291 | the least next review strictly after now, taken from some card, and absent exactly when no card is upcoming |
| Cards.CollectionReviewStatus | database/tables/cards.ts:264-297 | total is the collection's card count and due the number due among them, with due ≤ total; the next date is the earliest upcoming review of the collection, and absent exactly when all its cards are due |
| Cards.DueOrUpcoming | database/tables/cards.ts:278-291 | each card is due or upcoming and not both, so the two counts add up to all cards |
| Cards.EmptyCollectionStatus | database/tables/cards.ts:273-297 | a collection without cards reports 0 total, 0 due and no next date |
| Cards.CardStore.AddCard | database/tables/cards.ts:43-69 | appends the new card after the stored ones and returns its fresh id |
| Cards.CardStore.AddCardsInBulk | database/tables/cards.ts:137-166 | appends the new cards after the stored ones and returns their fresh ids in order |
| Cards.CardStore.UpdateCard | database/tables/cards.ts:76-93 | stores the list with the matching cards' texts and tag replaced |
| Cards.CardStore.DeleteCard | database/tables/cards.ts:123-130 | stores the list without the cards with the id |
| Cards.CardStore.RecordReview | database/tables/cards.ts:174-222 | the field-by-field update of the first matching card equals the review rule; an unknown id writes nothing |
| Collections.AllCollections | database/tables/collections.ts:48-59 | listing returns the stored collections as a permutation, newest first |
| Collections.Orphan | database/tables/collections.ts:73-78 | same cards in the same order; those of the collection lose their collection, the rest are unchanged, and none refers to the id afterwards |
| Collections.WithoutCollection | database/tables/collections.ts:88-90 | only collections with another id remain, each as often as before |
| Collections.WithoutCollectionConcat | database/tables/collections.ts:88-90 | deleting keeps the order of the remaining collections |
| Collections.DeleteAbsentCollection | database/tables/collections.ts:66-94 | deleting an id that no collection and no card has leaves both lists as they were |
| Collections.CollectionStore.CreateCollection | database/tables/collections.ts:14-41 | appends a collection whose id is the `Date.now()` reading and whose creation time is the later `new Date()` reading, and returns that id |
| Collections.CollectionStore.DeleteCollection | database/tables/collections.ts:66-94 | stores the orphaned card list, then the collection list without the id |
| Grammar.WithoutFirst | utils/database/grammar.ts:34-46 | deleting an absent id changes nothing, and deleting a present one removes exactly one concept |
| Grammar.ReplaceFirst | utils/database/grammar.ts:48-60 | an update keeps the length, changes nothing for an absent id, and puts the argument in the list for a present one |
| Grammar.SpliceIsWithoutFirst | utils/database/grammar.ts:36-40 | splice at the found index is the removal of the first match |
| Grammar.AssignIsReplaceFirst | utils/database/grammar.ts:52-54 | assigning at the found index is the replacement of the first match |
| Grammar.DeleteKeepsLaterDuplicates | utils/database/grammar.ts:36-40 | when two concepts share the id, the later one survives the delete |
| Grammar.WithoutFirstKeepsOthers | utils/database/grammar.ts:39-40 | the concepts before the match keep their places and those after it shift down by one |
| Grammar.GrammarStore.AddConcept | utils/database/grammar.ts:20-32 | appends the caller's concept with a fresh id and the creation time |
| Grammar.GrammarStore.DeleteConcept | utils/database/grammar.ts:34-46 | removes the first concept with the id; writes nothing when there is none |
| Grammar.GrammarStore.UpdateConcept | utils/database/grammar.ts:48-60 | replaces the first concept with the argument's id by the argument as a whole; writes nothing when there is none |
| Session.ReviewSession.constructor | deprecated/components/Cards/hooks/useSpacedRepetition.ts:8-11 | a session starts with no cards, position 0 and loading |
| Session.ReviewSession.CurrentCard | deprecated/components/Cards/hooks/useSpacedRepetition.ts:44-50 | the current card exists exactly while the position is in the list; then it is card number `CurrentIndex` (position + 1, line 50) of `TotalCards` (the list's length, line 49), and in a valid session it is absent exactly when the list is empty |
| Session.ReviewSession.LoadDueCards | deprecated/components/Cards/hooks/useSpacedRepetition.ts:13-24 | a successful load replaces the list with the due cards and resets the position; a failed one keeps both; loading ends either way |
| Session.ReviewSession.HandleCardReview | deprecated/components/Cards/hooks/useSpacedRepetition.ts:30-42 | past the end nothing happens; otherwise the current card's review is recorded at `now`, and the position advances or, after the last card, the due list is reloaded as of the later reading `reloadNow` |
| ObjectMarkers.TrimStart | components/Grammar/utils/objectMarkers.ts:9 | the leading trim gives a suffix of the word that is empty or starts with a non-whitespace unit |
| ObjectMarkers.TrimStartDropsWhitespace | components/Grammar/utils/objectMarkers.ts:9 | every unit the leading trim removes is whitespace, so it removes exactly the leading whitespace |
| ObjectMarkers.TrimEnd | components/Grammar/utils/objectMarkers.ts:9 | the trailing trim gives a prefix of the word that is empty or ends with a non-whitespace unit |
| ObjectMarkers.TrimEndDropsWhitespace | components/Grammar/utils/objectMarkers.ts:9 | every unit the trailing trim removes is whitespace, so it removes exactly the trailing whitespace |
| ObjectMarkers.Trim | components/Grammar/utils/objectMarkers.ts:9 | a trimmed word is empty or starts and ends with non-whitespace |
| ObjectMarkers.TrimBlank | components/Grammar/utils/objectMarkers.ts:9 | a word trims to nothing exactly when it is all whitespace |
| ObjectMarkers.BlankTrimStart | components/Grammar/utils/objectMarkers.ts:9 | the leading trim of an all-whitespace word is empty |
| ObjectMarkers.ContentSurvivesTrim | components/Grammar/utils/objectMarkers.ts:9 | a word with a non-whitespace unit does not trim to nothing |
| ObjectMarkers.TrimIsSlice | components/Grammar/utils/objectMarkers.ts:9 | the trimmed word is a slice of the word with only whitespace cut off on either side |
| ObjectMarkers.TrimPadding | components/Grammar/utils/objectMarkers.ts:9 | surrounding whitespace does not change the trimmed word |
| ObjectMarkers.TrimStartPadding | components/Grammar/utils/objectMarkers.ts:9 | leading whitespace is removed by the leading trim |
| ObjectMarkers.TrimEndPadding | components/Grammar/utils/objectMarkers.ts:9 | trailing whitespace is removed by the trailing trim |
| ObjectMarkers.TrimStartAppend | components/Grammar/utils/objectMarkers.ts:9 | trailing whitespace passes through the leading trim of a word with content |
| ObjectMarkers.TrimKeepsLast | components/Grammar/utils/objectMarkers.ts:9-12 | a word ending in non-whitespace keeps that unit as the last unit of its trimmed form |
| ObjectMarkers.JsRem28 | components/Grammar/utils/objectMarkers.ts:21 | JavaScript's remainder by 28: it lies strictly between −28 and 28 and takes the sign of the dividend |
| ObjectMarkers.JsRemZero | components/Grammar/utils/objectMarkers.ts:21-24 | the JavaScript remainder is zero exactly when the Euclidean one is |
| ObjectMarkers.UnitHasFinalIff | components/Grammar/utils/objectMarkers.ts:21-24 | the code's per-unit test (`UnitHasFinal`: the JavaScript remainder of the offset from U+AC00 by 28 is not 0) holds exactly when the offset is not a multiple of 28 |
| ObjectMarkers.LastContent | components/Grammar/utils/objectMarkers.ts:9-12 | the last unit of a trimmed word with content is the word's last non-whitespace unit, with only whitespace after it |
| ObjectMarkers.HasFinalByLastContent | components/Grammar/utils/objectMarkers.ts:9-24 | the code's `hasFinalConsonant` (`HasFinalConsonant`) is true for an all-whitespace word, and otherwise true exactly when the word's last non-whitespace unit is not a multiple of 28 past U+AC00 |
| ObjectMarkers.CheckObjectMarker | components/Grammar/utils/objectMarkers.ts:7-30 | stated on the raw word: an all-whitespace word accepts exactly 을; otherwise, with `u` the last non-whitespace unit of the word, the result is true exactly when the marker is 을 if `(u − U+AC00)` is not a multiple of 28 and 를 if it is; any other marker is rejected |
| ObjectMarkers.Compose | components/Grammar/utils/objectMarkers.ts:17-20 | a composed syllable lies in the precomposed Hangul block starting at U+AC00 |
| ObjectMarkers.ComposeFinal | components/Grammar/utils/objectMarkers.ts:20-21 | the remainder by 28 of a syllable's offset is its final-consonant index |
| ObjectMarkers.DecomposeSyllable | components/Grammar/utils/objectMarkers.ts:17-21 | every precomposed syllable is the composition of its leading, vowel and final indices |
| ObjectMarkers.ComposeHasFinal | components/Grammar/utils/objectMarkers.ts:21-24 | the code's test on a composed syllable holds exactly when its final index is not 0 |
| ObjectMarkers.SyllableMarker | components/Grammar/utils/objectMarkers.ts:7-30 | after a word ending in syllable (l, v, t), 을 is accepted exactly when t ≠ 0 and 를 exactly when t = 0 |
| ObjectMarkers.BlankWordTakesEul | components/Grammar/utils/objectMarkers.ts:9-24 | a blank word accepts 을 and only 을 |
| ObjectMarkers.CheckIgnoresPadding | components/Grammar/utils/objectMarkers.ts:9-29 | surrounding whitespace does not change the verdict |
| ObjectMarkers.LastUnitDecides | components/Grammar/utils/objectMarkers.ts:12-29 | two words whose trimmed forms end in the same unit get the same verdict |
| ObjectMarkers.AnyUnitByRemainder | components/Grammar/utils/objectMarkers.ts:12-29 | without a Hangul range check, any last unit is judged by whether its offset from U+AC00 is a multiple of 28 |

## Left out

- Storage and JSON: the key–value store's reads and writes are the `blob` fields, and JSON encoding is the identity. A failing read or write, the `try`/`catch` around each operation and its error log are not modelled, except for the failing due-card load in the session.
- UUIDs and the clock: `Crypto.randomUUID()`, `Date.now()` and `new Date()` become parameters (`freshId`, `freshIds`, `now`). Uniqueness of the UUIDs is not assumed.
- ISO date strings: timestamps are integers. The code compares ISO strings with `<=` and `>`, which agrees with comparing the instants only for the fixed-width strings `toISOString` produces for the years 0000 to 9999.
- Cards.ReviewedNotDueUntilNext: holds of the model for every interval, but not of the code for a next review after the year 9999. There `toISOString` writes an expanded year `+YYYYYY`, and `+` sorts before the digits, so the string tests at database/tables/cards.ts:248, 280 and 285 treat such a card as due at once and not upcoming. That takes an interval of roughly 2.9 million days or more. Beyond ±8.64e15 ms from the epoch `toISOString` throws instead, and `updateCardReview` then writes nothing. The model has no upper bound on dates.
- Cards.NewCards: takes one creation time per draft, as the code reads `new Date()` once per draft (database/tables/cards.ts:155). It does not state that those readings are non-decreasing, since the clock is a parameter.
- Collections.CollectionStore.CreateCollection: takes the `Date.now()` id and the `new Date()` creation time (database/tables/collections.ts:30, 33) as two parameters and does not relate them.
- Session.ReviewSession.HandleCardReview: the review is recorded at `now` and the reload after the last card filters as of `reloadNow`, as the code reads the clock again inside `getDueCards`. The model does not state that `reloadNow >= now`.
- Cards.Review: the next review is `now` plus whole days of 86 400 000 ms. The code uses a second clock reading and `setDate` in local time, so a daylight-saving change can move it by an hour. Plain days are modelled instead.
- Cards.Review: the ease factor is exact in tenths. The code keeps it as a binary float, and the drift changes the schedule of a card that was failed five times in a row. Five incorrect reviews of a new card take the code's ease from 2.5 to 1.4999999999999998 (`ease - 0.2` at database/tables/cards.ts:214), so the next correct review gives `Math.round(1 * 1.4999999999999998)` = 1 day (line 206). The model gives 1.5 and 2 days. The gap persists: the following correct reviews give 2 and 3 days in the code, and 3 and 5 days in the model (`Cards.FailedFiveTimesThenCorrect` states the model's side).
- Cards.DueCards: does not state the order among never-scheduled cards, nor among cards with equal next reviews. The code's comparator returns −1 for two never-scheduled cards both ways, so their order is up to the engine. The model's sort keeps stored order there.
- Cards.AllCards, Collections.AllCollections: do not state that equal creation times keep their stored order. The model's `SortBy` is stable, as JavaScript's sort is, but only the ordering and permutation are stated.
- Session.ReviewSession.HandleCardReview: a failing review write is not modelled; the code would give up the handler at that point. Review submissions are taken to be serialised: each call sees the position and due list the previous call left. In the hook, `handleCardReview` reads them from the render that created it, and the old test screen calls it un-awaited from a one-second `setTimeout` (deprecated/components/Cards/components/CardTest.tsx:94-95), so two answers within that second could review the same card twice and advance the position once. The React plumbing (state setters, the effect that loads on mount and on collection change, `reloadCards` as a second name for `LoadDueCards`) is modelled as the class's fields and its methods only.
- The duplicate card functions in `utils/database/cards.ts` and the hooks, screens and components around the core are not part of this model. Their card table routines are copies of those modelled here, without review scheduling.
