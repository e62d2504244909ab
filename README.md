# brew-off results viewer — a Dafny model of its logic

The brew-off viewer shows the results of a home-brew contest. It reads three
tab-separated tables (registrants, leaderboard, winners), reconciles them
into one list of beers and five winner buckets, caches the result, and walks
an audience through a staged reveal: an intro, four category reveals, a
grand-champion finale and a closing screen, with comment bubbles, a label
carousel and an entry grid around them.

This project models the logic under that presentation, one Dafny module per
source file:

- `Fetch` covers `src/data/fetch.ts`. It splits the TSV text into a grid,
  parses rows by exact header lookup, and builds one beer per leaderboard id
  from a JavaScript `Map` modelled with its insertion order. Winner rows are
  grouped into the five buckets, and the buckets and the beer list are
  sorted. The loader is a `method` around the cache.
- `Cache` covers `src/data/cache.ts`. It is a class holding the memory tier
  and a fallible persistent store. The clock is a parameter.
- `CategoryReveal`, `FinaleReveal` and `RevealDeck` are the three reveal
  state machines. Each is a transition function, plus a class whose handlers
  update `step` (or the active section), the image-preload counter and the
  confetti flag.
- `CommentBubbles` covers the `addNextComment` step. It is a state
  function over the visible list, the used ids, the cursor and the created
  counter. The class method runs the scan loop and is proved equal to that
  function.
- Smaller pure modules:
  - `CommentGenerator` builds the sample comments;
  - `CategoryPlacard` ranks a placard;
  - `EntryGrid` lays out rows;
  - `Drive` and `Pattern` extract Drive links and implement the regular
    expressions behind them as first-match searches;
  - `LabelCarousel` builds and de-duplicates slides;
  - `DriveImage` holds the candidate URLs and the fallback index;
  - `Cookies` covers the cookie string.
- Shared helpers:
  - `Wrappers` holds `Option` and `Result`;
  - `Text` holds the string operations of JavaScript that the code uses:
    `split`, `indexOf`, `includes`, `trim`, ASCII `toLowerCase`, `filter`;
  - `Types` holds the entities, categories and score fields;
  - `Sorting` models `Array.prototype.sort` as a stable insertion sort,
    and proves it is a permutation, sorted for a total preorder, and
    stable.

In three places the code behaves differently from what a reader might expect. The model follows the code:

- The merged beer map is seeded only from leaderboard rows. A registrant
  without a leaderboard row does not appear (`src/data/fetch.ts:100-112`).
- Winners with tied scores keep their table order. There is no
  tie-break (`src/data/fetch.ts:146-149`).
- `loadData` takes no parameter. A `force` flag passed to it has no effect.

## Model

| member | source | states |
|---|---|---|
| Text.Split | src/data/fetch.ts:19-21 | `split` gives at least one part, no part contains the separator, and joining the parts back gives the text (`Text.JoinSplit`) |
| Text.IndexOf | src/data/fetch.ts:25 | `indexOf` is -1 exactly when the value is absent, and otherwise the first position holding it |
| Text.Trim | src/data/drive.ts:84 | `trim` removes exactly the leading and trailing white space and keeps the inside |
| Text.ToLower | src/utils/commentGenerator.ts:48 | lowercasing maps each character and keeps the length |
| Text.ContainsAt | src/utils/commentGenerator.ts:49-66 | `includes` holds exactly when some position starts the pattern |
| Text.Contains | src/utils/commentGenerator.ts:49-66 | `includes`, the reference definition; `Text.ContainsAt` states that it holds exactly when some position starts the pattern |
| Fetch.ParseTsv | src/data/fetch.ts:17-21 | every row has at least one cell, and no cell holds a tab, a newline or a carriage return |
| Fetch.TsvRoundTrip | src/data/fetch.ts:17-21 | rendering a grid of clean, non-blank rows and splitting it again gives the same grid |
| Fetch.ParseTsvIgnoresCr | src/data/fetch.ts:18 | removing carriage returns first changes nothing: any text and its `\r`-free form give the same grid |
| Fetch.ParseTsvLines | src/data/fetch.ts:19-21 | for any two texts, joining them with a newline gives the grid of the first followed by the grid of the second |
| Fetch.ParseTsvLine | src/data/fetch.ts:18-21 | a single line that is empty once its carriage returns are removed gives no row; any other line gives exactly one row, its tab-separated cells |
| Fetch.Cell | src/data/fetch.ts:40-48 | a cell lookup is present exactly for an index inside the row, and then it is that cell; otherwise it is `undefined` |
| Fetch.ToNum | src/data/fetch.ts:13 | `toNum` is null exactly for the empty string, and otherwise the number parse |
| Fetch.ToNum0 | src/data/fetch.ts:14 | `toNum0` is 0 for a missing or empty cell, and otherwise the number parse |
| Fetch.RegistrantOf | src/data/fetch.ts:39-49 | the registrant built from one row, the reference definition; `Fetch.ParseRegistrants` states which rows are built and in what order |
| Fetch.LeaderboardRowOf | src/data/fetch.ts:68-80 | the leaderboard row built from one row, the reference definition; `Fetch.ParseLeaderboard` states which rows are built and in what order |
| Fetch.ParseRegistrants | src/data/fetch.ts:23-50 | fails exactly on an empty table; otherwise the registrants are built from the data rows with a non-empty `EntryID`, one per row, in table order, so every such row gives a registrant and every registrant comes from such a row |
| Fetch.ParseLeaderboard | src/data/fetch.ts:52-81 | fails exactly on an empty table; otherwise the leaderboard rows are built from the data rows with a non-empty `EntryID`, one per row, in table order, so every such row gives a leaderboard row and every leaderboard row comes from such a row |
| Fetch.HeaderLookupExact | src/data/fetch.ts:25 | a column is found only by an exactly equal header cell, at its first occurrence |
| Fetch.OrderedMap.Set | src/data/fetch.ts:103 | `Map.set` overwrites the value; a new key goes last, and an existing key keeps its place |
| Fetch.OrderedMap.Values | src/data/fetch.ts:152 | `Array.from(map.values())` lists the values in key insertion order |
| Fetch.IndexByIdLast | src/data/fetch.ts:95-97 | the registrant index maps each registered id to the last registrant carrying it |
| Fetch.MergeSpec | src/data/fetch.ts:100-112 | the merged map is well formed: its key list has no duplicates and holds exactly its keys; which beer each key holds is stated by `Fetch.MergeLastRowWins` and `Fetch.MergedBeerProvenance` |
| Fetch.MergeLastRowWins | src/data/fetch.ts:100-112 | there is one beer per distinct leaderboard id and no other; it is built from the last leaderboard row with that id |
| Fetch.MergedBeerProvenance | src/data/fetch.ts:102-111 | the scores come from the leaderboard; the name is the registrant's beer name unless it is absent, then the leaderboard `Beer`; brewer, style, ABV and image come from the registrant, or are absent |
| Fetch.MergeBeers | src/data/fetch.ts:100-112 | the merge loop computes the merged map specified by `MergeSpec` |
| Fetch.GroupSpecBuckets | src/data/fetch.ts:115-136 | grouping fails exactly when an accepted row names a category outside the five. Otherwise each bucket holds, in table order, the beers of the accepted rows with that category |
| Fetch.GroupSpec | src/data/fetch.ts:129-136 | the winners loop as a fold over the rows, the reference definition; `Fetch.GroupSpecBuckets` states its meaning |
| Fetch.GroupWinners | src/data/fetch.ts:129-136 | the winners loop computes the grouping specified by `GroupSpec`, stopping at the first failing push |
| Fetch.GroupSpecPrefixFails | src/data/fetch.ts:135 | once a push has thrown, later rows change nothing |
| Fetch.ByFieldDescPreorder | src/data/fetch.ts:146-149 | the bucket comparator, descending by one field, is a total preorder |
| Fetch.OverallThenTotalPreorder | src/data/fetch.ts:153-156 | the beer-list comparator is a total preorder |
| Fetch.SortedBucket | src/data/fetch.ts:137-150 | a sorted bucket is a permutation of the bucket, descending by the category's field, and tied beers keep their order |
| Fetch.SortedBeerList | src/data/fetch.ts:152-156 | the beer list is a permutation of the merged beers, descending by overall score, ties descending by total |
| Fetch.SortBuckets | src/data/fetch.ts:144-150 | every one of the five buckets is sorted by its own category's field |
| Fetch.SortEachBucket | src/data/fetch.ts:144-150 | the `forEach` over the buckets computes `SortBuckets` |
| Fetch.WinnersExt | src/data/fetch.ts:115-121 | the grouping is exactly its five buckets |
| Fetch.BuildNeedsHeaders | src/data/fetch.ts:24 | an empty registrant, leaderboard or winners grid makes the build throw |
| Fetch.BuildSpec | src/data/fetch.ts:94-162 | the build after the three fetches, the reference definition; `Fetch.BuildNeedsHeaders`, `Fetch.AssembleFails` and `Fetch.AssembleContents` state its meaning |
| Fetch.Assemble | src/data/fetch.ts:100-162 | the build after the two parses, the reference definition; `Fetch.AssembleFails` and `Fetch.AssembleContents` state its meaning |
| Fetch.AssembleFails | src/data/fetch.ts:129-136 | after the parses, the build fails exactly when some accepted winners row has an unknown category |
| Fetch.AssembleContents | src/data/fetch.ts:94-162 | a built result lists every merged beer once, carries the time stamp, and each bucket is a permutation of its accepted rows' beers |
| Fetch.Build | src/data/fetch.ts:94-162 | the build steps compute `BuildSpec` |
| Fetch.LoadData | src/data/fetch.ts:83-165 | a fresh cache hit is returned as it is and nothing is rebuilt. Otherwise the result is the build of the three grids. A successful build is stored in memory and, when the store accepts the write, in the store; a failed build leaves both tiers as the lookup left them |
| Cache.GetSpec | src/data/cache.ts:7-25 | a result comes from a fresh memory entry or a fresh readable store entry. Memory gains at most the looked-up key, and no other key changes |
| Cache.SetThenGet | src/data/cache.ts:27-29 | a lookup within the age limit after `setCached` returns the value from memory, and memory is unchanged |
| Cache.FreshBoundary | src/data/cache.ts:11 | an age exactly equal to the limit is fresh; one millisecond more is stale |
| Cache.MemoryHitIgnoresStore | src/data/cache.ts:10-11 | on a fresh memory hit the result does not depend on the store at all |
| Cache.StoreFallback | src/data/cache.ts:13-24 | without a fresh memory entry, a fresh intact store entry is promoted and returned; otherwise the result is null and memory is unchanged |
| Cache.LookupKeepsMemory | src/data/cache.ts:7-25 | a lookup never evicts a memory entry, stale or not |
| Cache.TwoTierCache.constructor | src/data/cache.ts:5 | the memory tier starts empty over a given store |
| Cache.TwoTierCache.GetCached | src/data/cache.ts:7-25 | the lookup returns and promotes exactly as `Cache.GetSpec` says; the store is never written |
| Cache.TwoTierCache.SetCached | src/data/cache.ts:27-35 | memory maps the key to the value and its time; the store is written only when it is available and the write succeeds; a failing write is swallowed |
| Cache.SetThenGetCached | src/data/cache.ts:7-35 | a `getCached` within the age limit after `setCached` returns the value written |
| CategoryReveal.MedalsOf | src/components/CategoryReveal.tsx:55-57 | gold, silver and bronze exist exactly for one, two and three winners, so the medals present are always a prefix gold, silver, bronze |
| CategoryReveal.NextMove | src/components/CategoryReveal.tsx:127-174 | the `handleNext` table, the reference definition; `CategoryReveal.ReachableClosed`, `CategoryReveal.PrevInvertsNext` and `CategoryReveal.ForwardPathWalk` state its meaning |
| CategoryReveal.PrevMove | src/components/CategoryReveal.tsx:177-214 | the `handlePrevious` table, the reference definition; `CategoryReveal.ReachableClosed` and `CategoryReveal.PrevInvertsNext` state its meaning |
| CategoryReveal.ForwardPath | src/components/CategoryReveal.tsx:127-174 | the walk pressing next takes starts at the header |
| CategoryReveal.ReachableClosed | src/components/CategoryReveal.tsx:127-214 | next and previous never leave the steps of the header, the podium and the medals that exist |
| CategoryReveal.PrevInvertsNext | src/components/CategoryReveal.tsx:127-214 | on reachable steps, previous undoes next and next undoes previous |
| CategoryReveal.ForwardPathWalk | src/components/CategoryReveal.tsx:130-173 | next walks the path step by step and then completes; the path visits each reachable step exactly once |
| CategoryReveal.OneWinner | src/components/CategoryReveal.tsx:55-57 | with one winner the reachable steps are exactly header, podium-enter, gold-hero and gold-dock |
| CategoryReveal.NoWinners | src/components/CategoryReveal.tsx:134-144 | with no winners, next at podium-enter completes the category |
| CategoryReveal.BronzeCardState | src/components/CategoryReveal.tsx:233-244 | bronze is visible from bronze-hero on, has hero size only at bronze-hero, and never has podium size |
| CategoryReveal.SilverCardState | src/components/CategoryReveal.tsx:246-251 | silver is visible from silver-hero on, has hero size only at silver-hero, and never has podium size |
| CategoryReveal.GoldCardState | src/components/CategoryReveal.tsx:253-257 | gold is visible at gold-hero and gold-dock, has hero size only at gold-hero, and never has mini size |
| CategoryReveal.OneHeroAtATime | src/components/CategoryReveal.tsx:233-257 | only the step's own medal has hero size |
| CategoryReveal.CategoryRevealState.constructor | src/components/CategoryReveal.tsx:46-47 | a reveal opens at the header with images not loaded |
| CategoryReveal.CategoryRevealState.HandleNext | src/components/CategoryReveal.tsx:127-174 | nothing changes while images are not loaded; otherwise the step follows the next table or the category completes |
| CategoryReveal.CategoryRevealState.HandlePrevious | src/components/CategoryReveal.tsx:177-214 | the step follows the previous table, with no image guard; at the header the deck is told to go back |
| CategoryReveal.CategoryRevealState.StartPreload | src/components/CategoryReveal.tsx:60-92 | when active and not loaded, the counter waits for the winners with an image, and loading is done at once if there are none |
| CategoryReveal.CategoryRevealState.OnImageSettled | src/components/CategoryReveal.tsx:78-89 | a load or an error bumps the counter, and loading is done once the count reaches the number of images |
| CategoryReveal.PreloadThenSettleAll | src/components/CategoryReveal.tsx:60-92 | after the preload starts and every image settles, images are loaded and the step is unchanged |
| FinaleReveal.ConfettiTracksGold | src/components/FinaleReveal.tsx:111-201 | every next and previous keeps confetti on exactly at the gold step |
| FinaleReveal.FinaleNext | src/components/FinaleReveal.tsx:111-162 | the finale `handleNext` table, the reference definition; `FinaleReveal.FinaleReachableClosed`, `FinaleReveal.FinaleInverses` and `FinaleReveal.ConfettiTracksGold` state its meaning |
| FinaleReveal.FinalePrev | src/components/FinaleReveal.tsx:164-201 | the finale `handlePrevious` table, the reference definition; `FinaleReveal.FinaleInverses` and `FinaleReveal.CompleteGoesBackToHighest` state its meaning |
| FinaleReveal.FinaleReachableClosed | src/components/FinaleReveal.tsx:111-201 | next and previous never leave the steps of the medals that exist |
| FinaleReveal.FinaleInverses | src/components/FinaleReveal.tsx:111-201 | on reachable steps, previous undoes next (except at complete) and next undoes previous (except at header) |
| FinaleReveal.CompleteGoesBackToHighest | src/components/FinaleReveal.tsx:188-199 | previous from complete returns to gold whenever there is a winner, and to the header otherwise |
| FinaleReveal.FinaleRevealState.constructor | src/components/FinaleReveal.tsx:27-29 | the finale opens at the header without confetti, so the confetti invariant holds |
| FinaleReveal.FinaleRevealState.HandleNext | src/components/FinaleReveal.tsx:111-162 | nothing changes while images are not loaded; otherwise the step and confetti follow the next table, or the finale completes; the confetti invariant is kept |
| FinaleReveal.FinaleRevealState.HandlePrevious | src/components/FinaleReveal.tsx:164-201 | step and confetti follow the previous table, or the deck is told to go back; the confetti invariant is kept |
| FinaleReveal.FinaleRevealState.StartPreload | src/components/FinaleReveal.tsx:41-71 | the preload counter starts as in the category reveal |
| FinaleReveal.FinaleRevealState.OnImageSettled | src/components/FinaleReveal.tsx:57-68 | a load or an error bumps the counter, and loading is done at the last one |
| RevealDeck.SectionIndex | src/components/RevealDeck.tsx:49-56 | the section index never exceeds the closing index 6 |
| RevealDeck.CategoryIndexIsIndexOf | src/components/RevealDeck.tsx:51-52 | the written-out category position is `CATEGORY_ORDER.indexOf`, and it is non-negative exactly when `CATEGORY_ORDER.includes` the category |
| RevealDeck.IndexValues | src/components/RevealDeck.tsx:49-56 | intro is 0, category i is 1 + i, overall is 5 and closing is 6; the index tells reachable sections apart |
| RevealDeck.CategoryPositions | src/components/RevealDeck.tsx:17-22 | the order is Label, Color, Drinkability, Flavor, and Overall is not in it |
| RevealDeck.StepIndex | src/components/RevealDeck.tsx:59-93 | next moves one section on and stays at closing; previous moves one back and stays at intro; closing goes back to overall, overall to Flavor |
| RevealDeck.NextSection | src/components/RevealDeck.tsx:59-77 | the section `handleNext` selects, the reference definition; `RevealDeck.StepIndex`, `RevealDeck.Inverses` and `RevealDeck.ForwardWalk` state its meaning |
| RevealDeck.PrevSection | src/components/RevealDeck.tsx:80-93 | the section `handlePrevious` selects, the reference definition; `RevealDeck.StepIndex` and `RevealDeck.Inverses` state its meaning |
| RevealDeck.Inverses | src/components/RevealDeck.tsx:59-93 | previous undoes next except at closing, and next undoes previous except at intro |
| RevealDeck.ReachableClosed | src/components/RevealDeck.tsx:59-93 | next and previous never produce the Overall category as a section |
| RevealDeck.ForwardWalk | src/components/RevealDeck.tsx:59-77 | from intro, next walks Label, Color, Drinkability, Flavor, overall, closing and then stays; Overall is never entered |
| RevealDeck.Deck.constructor | src/components/RevealDeck.tsx:29 | the deck opens on the intro |
| RevealDeck.Deck.CurrentSectionIndex | src/components/RevealDeck.tsx:49-56 | the index of the active section is at most 6, and it is 0 exactly at the intro |
| RevealDeck.Deck.HandleNext | src/components/RevealDeck.tsx:59-77 | the active section becomes the next section |
| RevealDeck.Deck.HandlePrevious | src/components/RevealDeck.tsx:80-93 | the active section becomes the previous section |
| RevealDeck.Deck.OnAnimationComplete | src/components/RevealDeck.tsx:180-185 | the reveal cookie is written, and then reads as seen, only when the active section is closing |
| RevealDeck.PressNext | src/components/RevealDeck.tsx:59-77 | presses from a fresh deck reach closing exactly from the sixth press on |
| CommentBubbles.GridPosition | src/components/CommentBubbles.tsx:81-92 | the position is always one of the three grid slots |
| CommentBubbles.GridRoundRobin | src/components/CommentBubbles.tsx:81-92 | positions cycle through the three slots by the created counter, starting at the left slot |
| CommentBubbles.Scan | src/components/CommentBubbles.tsx:127-151 | a found index is a valid comment index |
| CommentBubbles.ScanSpec | src/components/CommentBubbles.tsx:127-151 | the scan returns the first candidate from the cursor, wrapping around, that is neither visible nor used. If it is exhausted, no candidate qualified |
| CommentBubbles.ExhaustedNoneEligible | src/components/CommentBubbles.tsx:131-158 | an exhausted scan means that no comment at all was eligible |
| CommentBubbles.Step | src/components/CommentBubbles.tsx:102-207 | one `addNextComment` call as a state function, the reference definition; `CommentBubbles.StepIdle`, `CommentBubbles.StepFault`, `CommentBubbles.StepChoice` and `CommentBubbles.StepAdds` state its meaning |
| CommentBubbles.StepIdle | src/components/CommentBubbles.tsx:110 | an inactive call, or one with no comments, changes nothing |
| CommentBubbles.StepFault | src/components/CommentBubbles.tsx:121-132 | with a stale cursor past the list the call throws at the first candidate; only the queued early reset takes effect |
| CommentBubbles.StepChoice | src/components/CommentBubbles.tsx:127-160 | the chosen comment is the first eligible one from the cursor, or, when none is eligible, comment 0 with the used set reset to its id |
| CommentBubbles.StepAdds | src/components/CommentBubbles.tsx:165-186 | the oldest bubble is evicted at the limit; the new one is appended last at the round-robin slot and is marked used; the used set keeps every earlier id and gains the chosen one, unless it was full or the scan came up empty, when it holds the chosen id alone; the cursor moves past the choice; the counter grows by one; the limit is kept |
| CommentBubbles.DuplicateOnFallback | src/components/CommentBubbles.tsx:153-173 | the fallback to index 0 can put a comment on screen twice |
| CommentBubbles.BubbleColor | src/components/CommentBubbles.tsx:239-251 | an id gets one of the six colours exactly when it is non-empty |
| CommentBubbles.ColorFromFirstChar | src/components/CommentBubbles.tsx:249 | the colour depends only on the first character |
| CommentBubbles.RemoveDropsOnly | src/components/CommentBubbles.tsx:190-194 | removal drops every bubble with that id and keeps every other bubble |
| CommentBubbles.ScanComments | src/components/CommentBubbles.tsx:127-151 | the `while` loop computes the scan specified by `Scan` |
| CommentBubbles.Bubbles.constructor | src/components/CommentBubbles.tsx:40-45 | the bubbles start empty with cursor and counter at 0 |
| CommentBubbles.Bubbles.AddNextComment | src/components/CommentBubbles.tsx:102-207 | the call updates the state and reports the outcome exactly as `Step` specifies |
| CommentBubbles.Bubbles.RemoveBubble | src/components/CommentBubbles.tsx:190-194 | the removal timer filters the visible list by id and changes nothing else |
| CommentBubbles.Bubbles.Reset | src/components/CommentBubbles.tsx:217-221 | deactivating or emptying the list clears the visible bubbles, the used set and the cursor; the created counter is kept |
| CommentGenerator.SampleComments | src/utils/commentGenerator.ts:13-68 | there are 6 or 7 comments, 7 exactly when a style comment exists; the first six are the stock ones; comment k has id `entryId-k` |
| CommentGenerator.DistinctIds | src/utils/commentGenerator.ts:13-68 | no two comments share an id |
| CommentGenerator.BaseShape | src/utils/commentGenerator.ts:13-44 | authors cycle Judge 1, 2, 3; comments 1 and 4 praise the style or "beer", 2 and 5 are fixed, 3 and 6 name the beer |
| CommentGenerator.StyleExtra | src/utils/commentGenerator.ts:47-68 | the keyword choice of the style comment, the reference definition; `CommentGenerator.SeventhComment` states its meaning |
| CommentGenerator.SeventhComment | src/utils/commentGenerator.ts:47-68 | a seventh comment exists exactly for a non-empty style whose lowercase form has a keyword; its author says whether "ipa" matched, else "stout"/"porter", else "wheat"/"weiss" |
| CommentGenerator.UpperCaseIpa | src/utils/commentGenerator.ts:48-52 | matching ignores ASCII case: "IPA" in a style gives the hop comment |
| CategoryPlacard.MetricKey | src/components/CategoryPlacard.tsx:19-25 | each category is ranked by a score field, never votes or total |
| CategoryPlacard.MetricKeyAgrees | src/components/CategoryPlacard.tsx:19-25 | the placard uses the same field as the loader's bucket sort, and different categories use different fields |
| CategoryPlacard.PlacardOrder | src/components/CategoryPlacard.tsx:35 | the placard comparator, the reference definition; `CategoryPlacard.OrderMeansRanks` and `CategoryPlacard.PlacardOrderPreorder` state its meaning |
| CategoryPlacard.OrderMeansRanks | src/components/CategoryPlacard.tsx:35 | the comparator says "not after" exactly when the metric is higher, or it ties and votes are higher, or both tie and the entry id collates no later |
| CategoryPlacard.PlacardOrderPreorder | src/components/CategoryPlacard.tsx:35 | with a collation that is a total preorder, the comparator is one too |
| CategoryPlacard.Numbered | src/components/CategoryPlacard.tsx:64-69 | line i carries rank i + 1 and the i-th beer |
| CategoryPlacard.Placard | src/components/CategoryPlacard.tsx:34-69 | the ranked lines of a placard, the reference definition; `CategoryPlacard.PlacardSpec` states its meaning |
| CategoryPlacard.PlacardSpec | src/components/CategoryPlacard.tsx:35-69 | the sorted copy is a permutation of the rows, ordered by metric, then votes, then entry id; at most ten lines are shown, ranked 1, 2, ... in order |
| EntryGrid.TargetColumns | src/components/EntryGrid.tsx:10-14 | 2 columns below 640, 4 from 1024, 3 in between |
| EntryGrid.ComputeBalancedRows | src/components/EntryGrid.tsx:16-30 | one row for a row count of at most 1. Otherwise exactly that many rows, which put back together give the items in order. The first `total % numRows` rows have one item more than the rest |
| EntryGrid.Balanced | src/components/EntryGrid.tsx:25 | two rows differ in length by at most one, and longer rows come first |
| EntryGrid.CeilDiv | src/components/EntryGrid.tsx:46 | `Math.ceil(n / c)` is the least k with k times c reaching n |
| EntryGrid.RowsFit | src/components/EntryGrid.tsx:44-47 | with the ceiling row count, every row has between 1 and `cols` entries |
| EntryGrid.Rows | src/components/EntryGrid.tsx:43-48 | no rows for no beers; otherwise the ceiling number of rows, holding all beers in order, each with 1 to `cols` entries |
| Pattern.FirstMatchSpec | src/data/drive.ts:11-12 | a first-match search finds nothing exactly when no position matches, and otherwise returns the capture of the leftmost match |
| Pattern.CaptureAt | src/data/drive.ts:11-12 | a capture is a non-empty run without stop characters, ended by a stop character or the end of the text |
| Pattern.MatchAfter | src/data/drive.ts:12 | a match right after a prefix without leading characters is read back exactly |
| Pattern.LastIdAt | src/data/drive.ts:95 | the greedy `[^#]*` backtracks to the rightmost `id=` that can still capture |
| Pattern.UcCapture | src/data/drive.ts:95 | a `uc?` match captures a non-empty id without `&` or `#` |
| Pattern.NoQuestionNoUc | src/data/drive.ts:95 | without a `?` the `uc?` pattern cannot match |
| Drive.ExtractDriveId | src/data/drive.ts:9-17 | `extractDriveId`, the reference definition; `Drive.ExtractDriveIdSpec` states its meaning |
| Drive.ExtractDriveIdSpec | src/data/drive.ts:9-17 | the folder segment wins over the `id` parameter; without a folder segment the result is the capture of the leftmost `id` parameter; the result is null exactly when neither matches, and never empty |
| Drive.FolderRoundTrip | src/data/drive.ts:11 | a folder link's id reads back when it ends at `/`, `?`, `#` or the end |
| Drive.DirectId | src/data/drive.ts:82-84 | the id `toDirectImageUrl` uses, the reference definition; `Drive.ToDirectImageUrl` states its order of preference |
| Drive.ToDirectImageUrl | src/data/drive.ts:79-89 | the result always starts with `https://lh3.googleusercontent.com/d/` and ends with `=w1200`; between them is the trimmed `/file/d/` segment if there is one, else the trimmed `id` parameter if there is one, else the trimmed input |
| Drive.ExtractDriveFileId | src/data/drive.ts:92-97 | `extractDriveFileId`, the reference definition; `Drive.FileIdPrecedence` states its order of preference |
| Drive.FileIdPrecedence | src/data/drive.ts:92-97 | the id is the trimmed `/file/d/` segment, else the trimmed `id` parameter, else the trimmed `uc?…id=` capture, else the trimmed input |
| Drive.BareIdKept | src/data/drive.ts:84-96 | a bare id without `/`, `?` or `&` is kept by both helpers, trimmed |
| Drive.FileRoundTrip | src/data/drive.ts:82-96 | a `/file/d/` link's id reads back trimmed, and the direct URL wraps it |
| Drive.DirectUsesFileId | src/data/drive.ts:79-97 | the direct URL wraps the `extractDriveFileId` id unless only the `uc?` pattern supplies it |
| Drive.ExtractDriveInfo | src/data/drive.ts:99-106 | the id is `extractDriveFileId`'s; the resource key is absent exactly when no `resourcekey=` parameter matches, and otherwise it is the capture of the leftmost match, never empty and free of `&` and `#` |
| Drive.ResourceKeyReadBack | src/data/drive.ts:99-106 | the key of the first `?resourcekey=` or `&resourcekey=` parameter, ended by `&`, `#` or the end, reads back exactly |
| LabelCarousel.DriveShareToDirect | src/components/LabelCarousel.tsx:13-29 | `driveShareToDirect`, the reference definition; `LabelCarousel.DriveShareToDirectSpec` states its meaning |
| LabelCarousel.DriveShareToDirectSpec | src/components/LabelCarousel.tsx:13-29 | null exactly for a missing or empty link. The `id` parameter wins over `/file/d/`, and either gives the `uc?export=view` address. Otherwise the link comes back unchanged |
| LabelCarousel.OpenLink | src/components/LabelCarousel.tsx:20-25 | an `open?id=` link is converted with its id |
| LabelCarousel.FileLink | src/components/LabelCarousel.tsx:21-25 | a `/file/d/` link without a query is converted with its id |
| LabelCarousel.FromBeers | src/components/LabelCarousel.tsx:99-105 | no more slides than beers |
| LabelCarousel.FromBeersSpec | src/components/LabelCarousel.tsx:99-105 | a beer gives a slide exactly when its image link is non-empty, and the slide carries the converted link, the caption and the id |
| LabelCarousel.Images | src/components/LabelCarousel.tsx:106-108 | the image list, the reference definition; `LabelCarousel.ImagesChoice` states its meaning |
| LabelCarousel.ImagesChoice | src/components/LabelCarousel.tsx:106-108 | the Drive images are used when there are any, the beers' slides otherwise |
| LabelCarousel.ComputeSlides | src/components/LabelCarousel.tsx:98-117 | the `seen`-set filter computes `Dedup` of the chosen images |
| LabelCarousel.Dedup | src/components/LabelCarousel.tsx:110-116 | the `seen`-set filter as a function, the reference definition; `LabelCarousel.DedupUnique`, `LabelCarousel.DedupCovers` and `LabelCarousel.DedupIsFirsts` state its meaning |
| LabelCarousel.DedupUnique | src/components/LabelCarousel.tsx:110-116 | kept slides have non-empty, pairwise distinct addresses taken from the input |
| LabelCarousel.DedupCovers | src/components/LabelCarousel.tsx:110-116 | every non-empty address of the input is kept |
| LabelCarousel.DedupIsFirsts | src/components/LabelCarousel.tsx:110-116 | the result is exactly the first slide of each non-empty address, in input order |
| DriveImage.BuildCandidates | src/components/DriveImage.tsx:9-21 | there are exactly five candidates |
| DriveImage.CandidatesSpec | src/components/DriveImage.tsx:9-21 | every candidate contains the `extractDriveFileId` id; the first is the sized Google user-content URL, equal to `toDirectImageUrl` unless only the `uc?` pattern supplies the id |
| DriveImage.Advance | src/components/DriveImage.tsx:27-29 | an error moves to the next candidate, or stays at the last; the index stays in range |
| DriveImage.AdvanceRepeated | src/components/DriveImage.tsx:28 | k errors from i lead to i + k, capped at the last index |
| DriveImage.ImageState.constructor | src/components/DriveImage.tsx:24-25 | the image starts at candidate 0 |
| DriveImage.ImageState.OnError | src/components/DriveImage.tsx:27-29 | the index advances as `Advance` says; the candidates are kept |
| DriveImage.ImageState.SetSource | src/components/DriveImage.tsx:24-25 | a new source rebuilds the candidates and keeps the index |
| DriveImage.FailRepeatedly | src/components/DriveImage.tsx:25-29 | over any run of errors the index never decreases, and it ends at min(start + k, 4) |
| Cookies.StripSpaces | src/utils/cookies.ts:27 | a stripped segment does not start with a space |
| Cookies.StripSpacesSuffix | src/utils/cookies.ts:27 | stripping removes only a leading run of spaces: the result is a suffix of the segment and everything before it is a space |
| Cookies.FirstValueNone | src/utils/cookies.ts:25-31 | nothing is found exactly when no stripped segment starts with `name=` |
| Cookies.FirstValueFound | src/utils/cookies.ts:25-31 | a found value is the rest of the first stripped segment that starts with `name=` |
| Cookies.CookieValue | src/utils/cookies.ts:21-32 | `getCookie` as a function, the reference definition; `Cookies.FirstValueNone`, `Cookies.FirstValueFound` and `Cookies.ReadBack` state its meaning |
| Cookies.GetCookie | src/utils/cookies.ts:21-32 | the segment loop with its strip loop computes `CookieValue` |
| Cookies.NeedsEquals | src/utils/cookies.ts:22-28 | a name never matches a longer name that merely starts with it |
| Cookies.ReadBack | src/utils/cookies.ts:21-32 | `name=value` followed by `;` or the end reads back as `value` |
| Cookies.SetThenGet | src/utils/cookies.ts:15-32 | a cookie written by `setCookie` reads back its value |
| Cookies.MarkSeen | src/utils/cookies.ts:37-46 | after `markRevealAsSeen` the reveal counts as seen |
| Cookies.ClearNotSeen | src/utils/cookies.ts:37-53 | after `clearRevealCookie` the value is empty and the reveal is not seen |
| Cookies.CookieJar.constructor | src/utils/cookies.ts:23 | the jar starts with the given cookie text |
| Cookies.CookieJar.SetCookie | src/utils/cookies.ts:11-16 | the cookie becomes `name=value;expires=...;path=/;SameSite=Strict` |
| Cookies.CookieJar.MarkRevealAsSeen | src/utils/cookies.ts:44-46 | writes `true` under the reveal cookie name, after which the reveal counts as seen |
| Cookies.CookieJar.ClearRevealCookie | src/utils/cookies.ts:51-53 | writes the empty value with an expired date, after which the reveal does not count as seen |
| Cookies.CookieJar.HasSeenReveal | src/utils/cookies.ts:37-39 | true exactly when the reveal cookie's value is `true` |
| Sorting.SortByPerm | src/data/fetch.ts:146-156 | `sort` returns a permutation of its input |
| Sorting.SortBySorted | src/data/fetch.ts:146-156 | with a comparator that is a total preorder, `sort` returns a sorted sequence |
| Sorting.SortByStable | src/data/fetch.ts:146-156 | elements that compare equal keep their relative order |

## Left out

- Network and asynchronous I/O are not modelled:
  - `fetch` inside `tsv`. `LoadData` takes the three texts as parameters.
  - `listDriveFolder` (`src/data/drive.ts:19-77`).
  - The `LabelCarousel` `init` effect, including the mapping of its static label index. The Drive images are a parameter.
  - The data provider's polling.
- `Number()` parsing, NaN and floating point: the number parse is an abstract function `string -> real`. Scores are exact reals compared by value.
- `localeCompare` is an abstract collation. The placard lemmas assume it is a total preorder.
- JSON serialisation in the cache is taken as an exact round trip. A store entry that fails to parse is a `Stored` value marked damaged. A store that throws is an unavailable flag. `Date.now()` is a parameter.
- Timers, `Math.random` jitter, keyboard and DOM listeners, and image `onload`/`onerror` become explicit method calls. A stale preload callback from an earlier effect run is not modelled. The counter is per preload.
- React batching: queued state updates are applied in order. The comment step reads the values of the refs at the start of the call. The one-render lag of the refs is not modelled.
- `document.cookie` is a plain string field, and an assignment replaces it. The browser's merging of cookies by name, its expiry handling, and the date arithmetic and `toUTCString` of the expiry (`src/utils/cookies.ts:12-13`) are left out: the expiry is a date-text parameter.
- `toLowerCase` is modelled on ASCII letters only. `trim` removes the full ECMAScript WhiteSpace and LineTerminator set; no other Unicode handling is modelled.
- Rendering, animation and layout are not modelled.
- Fetch.SortEachBucket and the beer-list sort: `Array.prototype.sort` works in place. The model sorts values with a stable insertion sort, so aliasing of the bucket arrays is not captured.
- Text.Filter: its own contract bounds only the length. Membership is stated by `Text.FilterMember`, and order is kept by construction.
- LabelCarousel.FromBeers: its own contract bounds only the length. Which slides appear is stated by `LabelCarousel.FromBeersSpec`.
- `driveShareToDirect`'s third pattern repeats the `id` parameter pattern, so it never adds a result. The model keeps it as written.
