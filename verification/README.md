# In-game rating overlay and ML rating core, in Dafny

This project models two parts of a draft assistant for MTG Arena.

- **The in-game overlay** (`src/ingame_overlay.py`). It puts one small rating badge over each card of the current draft pack. Its model covers:
  - the Arena pack order: rarity, then lands last, then colour order through the 32-entry colour sort table, then name;
  - the grid that turns a pack size and the client rectangle into badge positions;
  - the eight rating tiers and the gold "best in pack" colours;
  - the badge's show and hide;
  - the overlay's reactions to `update`, `hide_all`, a poll tick and `destroy`.
- **The ML rating core** (`src/ml_rating.py`). It has three parts:
  - the choice of model directory, downloaded models first and bundled models second;
  - the model manager, which caches ONNX sessions per `set_mode` (falling back from Premier to PickTwo) and card lists per set;
  - the rating calculator, which builds the pool vector, normalises the raw scores and keeps the last ratings.

Everything is a pure function over immutable datatypes. A call that mutates an object in the source returns the new object here: `State`, `Badge`, `Manager` and `Calculator`. Whatever the source reads from the outside world is an input:
- the Win32 window search, as `Env.window`;
- the platform and the settings, as the other `Env` fields;
- the file system, as a `Disk` record;
- ONNX inference, as the `infer` parameter;
- the sigmoid-and-round step, as the `scale` parameter.

Modules, one file each:

| module | file | models |
|---|---|---|
| `Wrappers` | wrappers.dfy | `Option`, `dict.get` |
| `Text` | text.dfy | `str.isdigit`, Python's `<` on `str`, decimal rendering of an index |
| `ColourOrder` | colour_order.dfy | `_COLOR_SORT_TABLE`, `_COLOR_FLAG`, `_card_color_flags` |
| `DraftSort` | draft_sort.dfy | `_RARITY_ORDER`, `mtga_draft_sort_key`, `sorted(..., key=...)` |
| `Layout` | layout.dfy | `GRID_LAYOUTS`, calibration defaults, `_calculate_card_positions` |
| `Badges` | badges.dfy | `_tier_colors`, `RatingBadge.show` / `hide` |
| `Overlay` | overlay.dfy | `InGameOverlay` state and operations |
| `ModelStore` | model_store.dfy | model directory search, `MLModelManager` |
| `Ratings` | ratings.dfy | `MLRatingCalculator` |
| `Scenario` | scenario.dfy | a worked three-card pick: its sort order, badge positions and best-in-pack flags |

Three behaviours of the code that are easy to misread, all modelled as written:
- **Tied ratings** (src/ingame_overlay.py:401). Every card whose rating equals the pack maximum, and is positive, gets the gold badge. Each card is tested with `rating == best_rating and rating > 0`, so ties are not broken in favour of the first card.
- **Disabled poll tick** (src/ingame_overlay.py:445-451). A poll tick while the overlay is disabled changes nothing. It does not hide the badges. Only `update` hides them when the overlay is disabled.
- **`update` off Windows** (src/ingame_overlay.py:343-344). There `update` returns at once. It neither caches the new pack nor hides the badges.

## Model

| member | source | states |
|---|---|---|
| Text.StrLessIsFirstDifference | src/ingame_overlay.py:111 | The name comparison that breaks ties in the sort key is lexicographic: `a < b` exactly when the strings agree up to a position where `a` ends first or has the smaller character. |
| Text.StrLessTransitive | src/ingame_overlay.py:111 | The name order is transitive. |
| Text.StrLessTotal | src/ingame_overlay.py:111 | Of two different names, one is smaller. |
| Text.NatToStringRoundTrip | src/ingame_overlay.py:177 | The card index printed in a debug label reads back as that index. |
| ColourOrder.ColourSortTableIsPermutation | src/ingame_overlay.py:50-82 | The colour sort table is a bijection from the 32 colour masks onto the 32 positions; `MaskByRank` is its inverse. |
| ColourOrder.ColourSortTableInjective | src/ingame_overlay.py:50-82 | No two colour combinations share a sort position. |
| ColourOrder.SingleColourRanks | src/ingame_overlay.py:50-84 | The mono-coloured cards sort W, U, B, R, G at positions 0 to 4, and colourless cards sort at position 31, the last. |
| ColourOrder.FlagsOfIsPresence | src/ingame_overlay.py:84-99 | OR-ing `_COLOR_FLAG` over a colour list sets bit k exactly when the k-th of W, U, B, R, G occurs in the list; other strings add nothing. |
| ColourOrder.FlagsOfInRange | src/ingame_overlay.py:96-99 | The colour mask is below 32, so the `& 0x1F` in the sort key does not change it. |
| ColourOrder.FlagsOfDependsOnlyOnColours | src/ingame_overlay.py:96-99 | The mask depends only on which colours occur, not on their order or repetition. |
| ColourOrder.CardColourFlags | src/ingame_overlay.py:87-99 | Artifacts and lands that carry a colour identity are masked by their identity; every other card by its colours; the mask is below 32. |
| ColourOrder.ColourRank | src/ingame_overlay.py:50-82 | The sort position is below 32, and it is the last position exactly when the card has no colour. |
| DraftSort.RarityRank | src/ingame_overlay.py:47 | Mythic, rare and uncommon rank 0, 1 and 2; any other or missing rarity ranks 3, like common. |
| DraftSort.DraftSortKey | src/ingame_overlay.py:102-111 | A card with an all-digit name gets colour slot 32, rarity 3 and land 1. Any other card gets its rarity rank, its land flag, and the sort-table rank of its colour mask (identity for artifacts and lands, else colours). The name is always the last component. |
| DraftSort.KeyLessIrreflexive | src/ingame_overlay.py:102-111 | No key is smaller than itself under tuple comparison. |
| DraftSort.KeyLessTransitive | src/ingame_overlay.py:102-111 | Tuple comparison of sort keys is transitive. |
| DraftSort.KeyLessTotal | src/ingame_overlay.py:102-111 | Of two different keys, one is smaller. |
| DraftSort.DigitNamedKeyIsLast | src/ingame_overlay.py:104-106 | Any card with a real name has a key strictly before that of an unresolved card, whose name is all digits. |
| DraftSort.InsertPermutes | src/ingame_overlay.py:354 | Inserting one card adds exactly that card to the multiset. |
| DraftSort.InsertSorted | src/ingame_overlay.py:354 | Inserting into a sorted pack keeps it sorted. |
| DraftSort.SortPackPermutes | src/ingame_overlay.py:354 | The sorted pack is a permutation of the pack. |
| DraftSort.SortPackSorted | src/ingame_overlay.py:354 | The sorted pack is in non-decreasing key order. |
| DraftSort.SortPackStable | src/ingame_overlay.py:354 | For each key, the cards with that key keep their original relative order (the sort is stable). |
| DraftSort.SortPackOfSorted | src/ingame_overlay.py:354 | Sorting an already sorted pack leaves it unchanged. |
| DraftSort.SortPackIdempotent | src/ingame_overlay.py:354 | Sorting twice gives the same result as sorting once. |
| DraftSort.DigitNamedCardsSortLast | src/ingame_overlay.py:104-106 | In the sorted pack, every card after an unresolved card is also unresolved. |
| DraftSort.SortedSameFiltersEqual | src/ingame_overlay.py:354 | Two sorted sequences that agree on the cards of every key are equal. |
| DraftSort.SortPackIsTheStableSort | src/ingame_overlay.py:354 | Any sorted sequence with the pack's per-key subsequences is the sorted pack, so the result is the unique stable sort. |
| Layout.GridShapeByCount | src/ingame_overlay.py:37-42 | The layout table covers pack sizes 1 to 15; up to 8 cards form one row of n columns; 9 to 15 cards form two rows of 8 columns. |
| Layout.Truncate | src/ingame_overlay.py:320-321 | `int()` truncates toward zero: it rounds a non-negative coordinate down and a negative one up. |
| Layout.TruncateMonotone | src/ingame_overlay.py:320-321 | Truncation preserves order. |
| Layout.CardPositions | src/ingame_overlay.py:275-325 | There are no positions for a pack size outside 1 to 15 or an empty client rectangle. Otherwise card i gets the badge x of its column and the badge y of its row, with row `i // cols` and column `i % cols`. |
| Layout.CellPlacement | src/ingame_overlay.py:311-313 | Up to 8 cards, card i is in row 0, column i. From 9 cards on, the first 8 fill row 0 and the rest start again at column 0 of row 1. |
| Layout.PositionOfCard | src/ingame_overlay.py:311-323 | Card i's badge uses column i on the first row, or column i-8 on the second row for packs of more than 8 cards. |
| Layout.SingleRowLayout | src/ingame_overlay.py:37-42 | In a pack of up to 8 cards all badges share one y. With a well-formed calibration, x does not decrease from left to right. |
| Layout.TwoRowLayout | src/ingame_overlay.py:37-42 | In a pack of 9 to 15 cards, the first 8 badges share one y and the rest share another. Card i+8 is aligned under card i. With a well-formed calibration, the second row is not above the first. |
| Layout.BadgeXMonotone | src/ingame_overlay.py:300-320 | With a well-formed calibration (`grid_left <= grid_right`) and a non-empty client rectangle, a further-right column never gets a smaller badge x. |
| Layout.BadgeYMonotone | src/ingame_overlay.py:301-321 | With a well-formed calibration (`grid_top <= grid_bottom`) and a non-empty client rectangle, a lower row never gets a smaller badge y. |
| Badges.TierColoursIsStepFunction | src/ingame_overlay.py:115-133 | Unless the badge is best in pack, its colours are the palette entry indexed by how many of the boundaries 90, 75, 65, 58, 52, 45, 30 exceed the rating. The best-in-pack flag always gives gold. |
| Badges.BoundariesAboveAntitone | src/ingame_overlay.py:119-132 | A higher rating never falls in a lower tier. |
| Badges.BestColoursReserved | src/ingame_overlay.py:117-118 | The gold colours appear exactly when the best-in-pack flag is set. |
| Badges.ShortName | src/ingame_overlay.py:176 | The debug name is the first ten characters of the name, or the whole name when it is shorter. |
| Badges.Show | src/ingame_overlay.py:170-187 | After `show` the badge is visible at (x, y). It shows the rating, the best flag and the tier colours. It carries debug info exactly when some was given, holding the index and the short name. |
| Badges.Hide | src/ingame_overlay.py:189-192 | After `hide` the badge is withdrawn and keeps what it last displayed. |
| Badges.LabelTextParts | src/ingame_overlay.py:173-177 | In debug mode the label is the formatted rating, then `" ["`, then digits that read back as the index, then `':'`, then the short name, then `']'`. |
| Overlay.FindWindow | src/ingame_overlay.py:221-224 | Off Windows no game window is ever found; on Windows the answer is the window search's (`Env.window`). |
| Overlay.HideBadges | src/ingame_overlay.py:417-419 | `_hide_all` withdraws every badge and keeps each one's content. |
| Overlay.PackRatings | src/ingame_overlay.py:391-395 | Each card's rating is its name's entry in the ratings, or 0.0 when the name is missing. |
| Overlay.MaxRating | src/ingame_overlay.py:397 | The maximum bounds every rating and is attained by some card; an empty list gives the default 0. |
| Overlay.IsBestCharacterised | src/ingame_overlay.py:397-401 | A card is best in pack exactly when its rating is positive and no card in the pack is rated higher. |
| Overlay.SomeBestIffPositive | src/ingame_overlay.py:397-401 | Some badge is gold exactly when some card has a positive rating. |
| Overlay.Grow | src/ingame_overlay.py:386-388 | The badge pool grows to the pack size with fresh badges and keeps the existing ones in place. |
| Overlay.PlaceBadges | src/ingame_overlay.py:386-409 | The first n badges are shown at the n positions with the sorted pack's ratings. A badge gets the best flag, and gold, exactly when its card is best in pack; its colours are the tier colours of its rating and that flag. In debug mode it carries the card's index and short name, otherwise no debug info. Every badge beyond the pack is hidden with its content kept. |
| Overlay.ReadRect | src/ingame_overlay.py:357-376 | A client rectangle is read exactly when all hold: the pack and ratings are non-empty, the window is found, it is not minimised and its rectangle is readable. |
| Overlay.PositionBadges | src/ingame_overlay.py:352-409 | It keeps the cached pack, ratings and pick. If any guard fails, or there is no layout for the pack, every badge is hidden. Otherwise the pool grows to at least the pack size. |
| Overlay.PositionBadgesShowsSortedPack | src/ingame_overlay.py:352-409 | When placement succeeds, the badges show the sorted pack at the computed positions, and the rectangle read is remembered. |
| Overlay.VisibleBadgesMatchPack | src/ingame_overlay.py:352-409 | Afterwards exactly as many badges are visible as the pack has cards when placement succeeds, and none otherwise. |
| Overlay.PositionBadgesIdempotent | src/ingame_overlay.py:352-409 | Repositioning with the same environment changes nothing, so repeated poll ticks over a still window are stable. |
| Overlay.PositionBadgesAfterHide | src/ingame_overlay.py:352-419 | Hiding the badges first does not change the outcome of a repositioning. |
| Overlay.Update | src/ingame_overlay.py:331-350 | When disabled, it only hides the badges. Off Windows, it changes nothing. Otherwise it caches the pack, ratings and pick and repositions the badges against the new cache; the badge pool never shrinks. |
| Overlay.HideAll | src/ingame_overlay.py:411-419 | `hide_all` clears the cached pack and ratings and hides every badge. It keeps the pick, the last rectangle and the poll loop. |
| Overlay.PollTick | src/ingame_overlay.py:443-458 | A tick keeps the cache and reschedules itself. When the overlay is enabled with a non-empty pack and ratings it repositions the badges; otherwise it leaves them alone. |
| Overlay.Destroy | src/ingame_overlay.py:421-441 | `destroy` stops polling and empties the badge pool, keeping the cache. |
| Overlay.Init | src/ingame_overlay.py:204-215 | A new overlay has no badges, an empty cache and pick -1, and its poll loop is running. |
| Overlay.DestroyIdempotent | src/ingame_overlay.py:421-441 | Destroying twice is the same as destroying once. |
| Overlay.HideAllStaysHidden | src/ingame_overlay.py:411-415 | After `hide_all` a poll tick brings no badge back. |
| Overlay.DisableKeepsCacheForReenable | src/ingame_overlay.py:331-339 | A disabled `update` hides every badge and keeps the old cache. If that cache held a pack and ratings, the first tick after re-enabling acts on it as if the disabled update had not happened. |
| Overlay.DisabledTickChangesNothing | src/ingame_overlay.py:443-452 | A tick while disabled only reschedules the poll loop. |
| Overlay.EnabledUpdateShowsPack | src/ingame_overlay.py:340-350 | After an enabled `update` on Windows, exactly as many badges are visible as the new pack has cards when the window can be placed, showing the sorted pack at its layout positions; otherwise none is visible. |
| Overlay.EnabledTickShowsCache | src/ingame_overlay.py:445-451 | An enabled tick with a cached pack and ratings shows one badge per cached card, the sorted pack at its layout positions, when the window can be placed; otherwise none is visible. |
| ModelStore.Join | src/ml_rating.py:29 | A joined path ends with its last component, and joining onto an empty directory gives the component itself. |
| ModelStore.JoinKeepsDirectory | src/ml_rating.py:29 | Joining onto a non-empty directory gives a path that starts with the directory and has a separator just before the component. |
| ModelStore.AppdataModelDirectory | src/ml_rating.py:24-32 | It is the downloaded-models directory exactly when the `onnx` sub-directory exists and lists a `.onnx` file, or the directory is empty; otherwise it is "". |
| ModelStore.BundledModelDirectory | src/ml_rating.py:35-45 | It is `<base>/models` exactly when that directory exists, else "". |
| ModelStore.FindBestModelDirectory | src/ml_rating.py:48-58 | Downloaded models win when present; otherwise the bundled directory, or "" when there is none either. |
| ModelStore.NewManager | src/ml_rating.py:64-67 | A non-empty directory argument is used as given; an empty one is replaced by the best model directory. Both caches start empty. |
| ModelStore.SetModelDirectory | src/ml_rating.py:69-73 | Repointing the manager sets the directory and empties both caches. |
| ModelStore.ModesToTry | src/ml_rating.py:85 | Premier is tried first and then PickTwo; any other mode is tried alone. |
| ModelStore.TryModes | src/ml_rating.py:87-100 | The answer is what the first mode's existing file loads (a session, or None when loading raises), and None when no mode's file exists. A returned session is cached under the request's key; a failed search changes nothing. |
| ModelStore.GetModel | src/ml_rating.py:75-100 | Without ONNX it returns None and changes nothing. A cached key returns the cached session. A newly loaded session is cached under `set_mode`, and a failure leaves the manager unchanged. |
| ModelStore.NoFallbackOutsidePremier | src/ml_rating.py:85-97 | Outside Premier only the requested mode's model file is consulted. |
| ModelStore.PremierFallsBackToPickTwo | src/ml_rating.py:85-97 | When the Premier file is missing, Premier loads the PickTwo model and caches it under the Premier key. |
| ModelStore.PremierPrefersOwnModel | src/ml_rating.py:84-94 | When the Premier file exists, Premier's answer is what that file loads, whatever PickTwo's file holds. |
| ModelStore.LoadFailureStopsSearch | src/ml_rating.py:88-97 | If the first model file exists but fails to load, the result is None; no fallback is tried and nothing is cached. |
| ModelStore.CachedSessionIgnoresDisk | src/ml_rating.py:80-82 | Once a session is loaded, asking again returns it whatever the disk now holds. |
| ModelStore.RepointForgetsSessions | src/ml_rating.py:69-73 | After repointing, lookups depend only on the new directory: nothing cached before survives. |
| ModelStore.GetCardNames | src/ml_rating.py:102-120 | A cached list is returned as is. A missing CSV returns None. An existing CSV gives what reading it yields: a newly read list comes from `<dir>/cards/<set>.csv` and is cached, and a failed read returns None and changes nothing. |
| Ratings.FirstIndex | src/ml_rating.py:159-160 | `list.index` is the first position holding the name. |
| Ratings.CollectionVector | src/ml_rating.py:157-161 | The pool vector has one entry per vocabulary position. The first occurrence of a name counts how many times it appears in the pool; later duplicates stay 0. |
| Ratings.CollectionVectorTotal | src/ml_rating.py:157-161 | The pool vector sums to the number of pool picks whose name is in the vocabulary. |
| Ratings.PackVector | src/ml_rating.py:164 | The pack vector is all ones, one per vocabulary position. |
| Ratings.VariancePositiveIffSpread | src/ml_rating.py:178-180 | The population spread is positive exactly when the raw scores are not all equal. |
| Ratings.Normalize | src/ml_rating.py:177-183 | Equal raw scores all become 50.0; otherwise each score is scaled against the mean and the spread. |
| Ratings.ZipToMap | src/ml_rating.py:186-189 | The ratings dictionary has exactly the vocabulary's names as keys. |
| Ratings.ZipToMapLastOccurrence | src/ml_rating.py:186-189 | A name that occurs more than once keeps the value of its last occurrence. |
| Ratings.ZipToMapConstant | src/ml_rating.py:186-189 | Constant values give a constant dictionary. |
| Ratings.NewCalculator | src/ml_rating.py:126-130 | A new calculator holds no ratings. |
| Ratings.ComputeRatings | src/ml_rating.py:132-197 | The manager afterwards is the one `get_model` left, or, once a session loaded, the one `get_cardnames` left, so what either call cached stays cached. Either it returns {} and the calculator is otherwise unchanged, or the new ratings become the current ones, keyed by exactly the set's card names and tagged with the set and mode. |
| Ratings.UniformScoresRateFifty | src/ml_rating.py:180-183 | If inference only ever yields equal scores, every rating returned is 50.0. |
| Ratings.ComputeRatingsFails | src/ml_rating.py:143-197 | When ONNX is missing, no session loads, no card list is read, inference raises, or there are fewer scores than cards, the result is {}. The calculator's ratings, set and mode are then unchanged, and its manager is the one `get_model` left, or `get_cardnames` after it once a session loaded. |
| Ratings.ComputeRatingsSucceeds | src/ml_rating.py:147-193 | When the session loads, the card list is read and inference yields a score per card, the ratings are the normalised scores zipped with the card names. They become the current ratings, tagged with the set and mode, and the manager keeps the session and card list it loaded. Every card of the set has a rating, the last occurrence's score for a repeated name. |
| Ratings.UniformScoresRateWholeVocabulary | src/ml_rating.py:180-189 | In a successful computation whose scores are all equal, every card of the set is rated 50.0. |
| Ratings.UnresolvableContextStaysEmpty | src/ml_rating.py:147-149 | With no cached session and no model file for any mode tried, the result is {} and the calculator is unchanged, however often it is asked. |
| Ratings.SuccessRatesWholeVocabulary | src/ml_rating.py:186-205 | After a computation that returns ratings, `has_ratings` holds and every card of the set has a rating. |
| Ratings.GetRating | src/ml_rating.py:199-201 | A rating is returned exactly for the names in the current ratings, with their value. |
| Ratings.ClearRatings | src/ml_rating.py:207-211 | Clearing empties the ratings and resets the set and mode, keeping the manager. |
| Ratings.ClearRatingsForgetsAll | src/ml_rating.py:207-211 | After clearing, `has_ratings` is false and no card has a rating. |
| Ratings.HasRatingsIffSomeRating | src/ml_rating.py:199-205 | `has_ratings` holds exactly when some card has a rating. |
| Scenario.ScenarioSortOrder | src/ingame_overlay.py:102-111 | Worked example: a blue common, a red common and an unresolved land sort blue, red, land. |
| Scenario.ScenarioPositions | src/ingame_overlay.py:275-325 | Worked example: three cards over a 1000x500 client at (100, 100) with the default calibration get badges at (286, 266), (369, 266) and (453, 266). |
| Scenario.ScenarioBestInPack | src/ingame_overlay.py:391-401 | Worked example: ratings 60, 80 and missing (0.0) highlight only the 80. |

## Left out

- **Win32 window search, minimised test and rectangle read** (`_find_mtga_window`, `_is_minimized`, `_get_mtga_rect`). These are foreign calls. Their answers are the input `Env.window`. Only the rule that nothing is found off Windows is modelled.
- **tkinter rendering.** This covers window creation, the font, `geometry` strings, `deiconify`/`withdraw`, click-through styling (`_ensure_click_through`) and `RatingBadge.destroy`. A badge is the pair (visible, last content).
- **Timers.** `root.after` and `after_cancel` are modelled as the `polling` flag. A tick is an explicit call, and the 500 ms period is not modelled.
- **The exception handler around a poll tick.** The model's repositioning raises nothing.
- **ONNX inference.** This includes `InferenceSession`, `session.run` and the input names. Inference is the parameter `infer`, whose `None` stands for a raised exception.
- **Float arithmetic.** Floats are exact reals, so float32 precision and rounding are not modelled.
- **The sigmoid and `round(…, 1)`.** Both are inside the parameter `scale`. It receives the score, the mean and the population variance; `std > 0` is modelled as variance > 0.
- **NaN behaviour of an empty score vector** is not modelled.
- **`f"{rating:.1f}"`** is the parameter `formatRating`.
- **The file system.** `os.path.isdir`, `os.listdir`, `os.path.exists`, the loading of a session and `pd.read_csv` are modelled by the `Disk` record. A file that exists but fails to load or parse is `None` there. `os.path.join` is modelled with '/' as the separator.
- **The base directory of the bundled models** (frozen executable or script) is a parameter.
- **`get_appdata_models_dir`.** src/model_update.py is not part of this model; its answer is the parameter `appdata`. sync_models.py is not part of this model either.
- **`is_ml_rating_available`** is the flag `onnxAvailable`.
- **Logging** is not modelled.
- **Aliasing of shared containers.** The model has value semantics, so it cannot show three effects of the source's shared references. `compute_ratings` returns the calculator's own `_current_ratings` dict (src/ml_rating.py:186-193). `clear_ratings` empties that dict in place (src/ml_rating.py:209), so a result a caller kept from before turns into {}. `update` caches the caller's own list and dict (src/ingame_overlay.py:346-347), so later changes by the caller reach the next poll tick. In the model, a returned or cached value never changes afterwards.
- **The `str(card)` branch of `_position_badges`.** Pack cards are always records, with a missing name taken as "".
- **`str.isdigit`** is modelled on ASCII digits only. Python also accepts other Unicode digit characters.
- ColourOrder.ColourFlag: has no contract of its own. Its values are stated by `ColourOrder.ColourLetterFlags`, and its effect on masks by `ColourOrder.FlagsOfIsPresence`.
- Badges.LabelText: states its shape only in debug mode, through `Badges.LabelTextParts`. Outside debug mode the label is `formatRating(rating)` alone.
