# Glace core, modelled in Dafny

This project models the sequential core of Glace, a small Java 2D game framework. It covers:

- **Caching** (`cache.dfy`). The expiring key/value cache `Cache` is an insertion-ordered set of `CachedObject` entries. It supports:
  - add;
  - first-match lookup by key or by value;
  - removal by key, by value or by entry;
  - a copy of the entries, and clear;
  - a periodic three-step sweep (`tick`).

  Its builder holds the seven policy settings and their defaults. Listener callbacks are an event log `events`, with one element per dispatch. The wall clock is a `now` parameter.
- **Images** (`image_loader.dfy`). `ImageLoader` does get-or-load of images on top of a `Cache`. The abstract `load` and `getFallback` are a function and a value fixed at construction. Every call of `load` is recorded in `loads`.
- **Geometry** (`hit_box.dfy`). `HitBox` is a mutable integer rectangle. Its intersection test counts touching edges as intersecting.
- **Rendering** (`canvas.dfy`). This covers:
  - `Renderable.Priority` with `isHigherThan` and `indexOf`;
  - the default layer;
  - `Canvas`, which keeps its renderables ordered by priority and slots the explicitly layered ones in at their layer index.
- **Animations** (`animation.dfy`). `Animation` holds a cyclic frame index with pause and resume. `AnimationHandler` is the list of running animations, which it registers on a canvas. Each tick advances every running animation once per occurrence in the list, in list order, until an active animation without frames ends the pass.
- **Attachments** (`attachable.dfy`). `Attachable` gives each object a single parent and a set of children, with the walk up to the root parent.
- **GameObjects** (`game_object.dfy`). This covers:
  - the size defaulting of `AbstractObjectBase`;
  - its render and tick distance rule, and the update gate;
  - `GameObjectManager`: registration, `tick`, and collision and position queries.

Two support modules sit underneath:

- `Seqs` (`seqs.dfy`) holds filters, stable insertion sort, and first-occurrence removal over sequences.
- `JavaLang` (`java_lang.dfy`) writes out the Java behaviours that Dafny's unbounded, Euclidean arithmetic does not give:
  - `int` division rounding toward zero;
  - 32-bit wrap-around;
  - `String.hashCode`;
  - `Integer.toString`.

Objects whose fields the source updates in place are classes. Lists and sets that the source mutates are `seq` and `set` fields that the methods reassign. The pure parts are functions, with lemmas about them.

Three behaviours of the cache are easy to misread, and the model follows the code in each:

- **Sweep step 1.** The filter only keeps entries that are *already* expired (`Cache.java:52`). So step 1 never expires a live entry, and it re-reports old expired entries on every sweep. `SweepReportsOnlyExpired` states this.
- **Capacity step.** The code *removes* exactly one entry, the first, per sweep (`Cache.java:74-79`), rather than trimming the cache down to its limit. It counts all entries, expired ones included. `SweepEvictsOnlyOne` states this.
- **`remove(String)`.** This call removes *every* entry with the key (`Cache.java:136-140`), not only the first.

## Model

| member | source | states |
|---|---|---|
| `Caching.ToMillis` | src/main/java/com/snac/data/runtime/caching/Cache.java:53-54 | `TimeUnit.toMillis`: milliseconds stay as they are, and the sign of the duration is kept (finer units divide toward zero, coarser units multiply) |
| `Caching.ToMillisMonotone` | src/main/java/com/snac/data/runtime/caching/Cache.java:53-54 | A longer duration never converts to fewer milliseconds, in every unit |
| `Caching.CachedObject.constructor` | src/main/java/com/snac/data/runtime/caching/Cache.java:207-212 | A new entry has its key and value, `timeAdded == lastUpdated == now`, and is not expired |
| `Caching.CachedObject.GetObject` | src/main/java/com/snac/data/runtime/caching/Cache.java:214-217 | Returns the value and sets `lastUpdated` to `now`; nothing else changes |
| `Caching.CachedObject.Expire` | src/main/java/com/snac/data/runtime/caching/Cache.java:219-221 | The expiry flag is set afterwards; it is the only field written, so the flag is one-way |
| `Caching.WithoutKey` | src/main/java/com/snac/data/runtime/caching/Cache.java:136-140 | The entries that survive removal by key: taken from the input, none with the key, no more than the input |
| `Caching.WithKey` | src/main/java/com/snac/data/runtime/caching/Cache.java:136-140 | The entries removal by key visits: taken from the input, each with the key |
| `Caching.ValueOf` | src/main/java/com/snac/data/runtime/caching/Cache.java:98-101 | First-match lookup: absent exactly when no entry has the key, otherwise the value of an entry with the key that no earlier entry shares |
| `Caching.Cache.constructor` | src/main/java/com/snac/data/runtime/caching/Cache.java:29-38 | A cache starts empty, with no events, holding the policy it was built with |
| `Caching.Cache.Add` | src/main/java/com/snac/data/runtime/caching/Cache.java:83-92 | Appends one fresh entry (key, value, both times `now`, not expired) after the unchanged old entries, same-key ones included; logs one `OnAdd` for it |
| `Caching.Cache.Get` | src/main/java/com/snac/data/runtime/caching/Cache.java:94-105 | Returns the first matching entry's value (or none); only that entry's `lastUpdated` becomes `now`, and no expiry flag changes |
| `Caching.Cache.GetKey` | src/main/java/com/snac/data/runtime/caching/Cache.java:107-118 | None exactly when no entry holds the value, otherwise the key of the first entry holding it; it changes nothing |
| `Caching.Cache.ContainsValue` | src/main/java/com/snac/data/runtime/caching/Cache.java:121-123 | True exactly when some entry holds the value |
| `Caching.Cache.ContainsKey` | src/main/java/com/snac/data/runtime/caching/Cache.java:125-127 | True exactly when some entry has the key; like `get`, it marks the first such entry as used |
| `Caching.Cache.ContainsEntry` | src/main/java/com/snac/data/runtime/caching/Cache.java:129-131 | Asks by the entry's key: true exactly when some entry has that key, marking the first as used |
| `Caching.Cache.RemoveKey` | src/main/java/com/snac/data/runtime/caching/Cache.java:133-144 | Afterwards exactly the entries with another key remain, in their order, and one `OnRemove` is logged per removed entry, in order |
| `Caching.KeyRemovalResult` | src/main/java/com/snac/data/runtime/caching/Cache.java:136-140 | The entry-by-entry removal over the snapshot, started at any position, ends with the entries of another key and reports the rest of the snapshot's matching entries |
| `Caching.KeyRemovalWhole` | src/main/java/com/snac/data/runtime/caching/Cache.java:136-140 | Over the whole snapshot, the removal keeps the entries with another key (still without repetitions) and reports all matching entries |
| `Caching.Cache.RemoveEntry` | src/main/java/com/snac/data/runtime/caching/Cache.java:157-165 | Always logs `OnRemove`; an absent entry leaves the entries unchanged, a present one is cut out at its position and nothing else moves |
| `Caching.Cache.RemoveValue` | src/main/java/com/snac/data/runtime/caching/Cache.java:147-155 | For each snapshot entry holding the value, all entries with its key are removed; the result and dispatches are those of `ValueRemoval`. The new dispatches are one `OnRemove` for each removed entry, each once, and none for a survivor |
| `Caching.ValueRemoval` | src/main/java/com/snac/data/runtime/caching/Cache.java:147-151 | Removal by value keeps only entries it was given and dispatches only `OnRemove`s of them (exactly the removed ones, each once, by `ValueRemovalReportsRemoved`) |
| `Caching.ValueRemovalAccounts` | src/main/java/com/snac/data/runtime/caching/Cache.java:136-151 | Every entry is either reported or kept by `remove(T)`: the reported entries and the survivors together make up exactly the entries it started from |
| `Caching.ValueRemovalReportsRemoved` | src/main/java/com/snac/data/runtime/caching/Cache.java:136-151 | Over entries without repetitions, `remove(T)` dispatches one `OnRemove` per removed entry: exactly the removed entries, each once, and no survivor |
| `Caching.ValueRemovalKeeps` | src/main/java/com/snac/data/runtime/caching/Cache.java:150-151 | `remove(T)` keeps exactly the entries whose key is not the key of any entry holding the value, in their original order |
| `Caching.Cache.GetCopyOfCached` | src/main/java/com/snac/data/runtime/caching/Cache.java:167-169 | The copy equals the entries, in order; it is a value, so later changes do not reach it |
| `Caching.Cache.Clear` | src/main/java/com/snac/data/runtime/caching/Cache.java:189-196 | Empties the cache and logs no event |
| `Caching.Due` | src/main/java/com/snac/data/runtime/caching/Cache.java:52-54 | An entry step 1 reports is already expired (and at least the threshold old, measured from last use or from creation) |
| `Caching.DueIn` | src/main/java/com/snac/data/runtime/caching/Cache.java:52-58 | The entries step 1 reports are entries of the cache, each due |
| `Caching.ExpiredIn` | src/main/java/com/snac/data/runtime/caching/Cache.java:67-68 | The entries step 2 removes are entries of the cache, each expired |
| `Caching.LiveIn` | src/main/java/com/snac/data/runtime/caching/Cache.java:64-68 | The entries step 2 keeps are entries of the cache, none expired |
| `Caching.SweptEntries` | src/main/java/com/snac/data/runtime/caching/Cache.java:64-79 | A sweep only drops entries: what is left comes from the cache and is no longer than it |
| `Caching.SweepEvents` | src/main/java/com/snac/data/runtime/caching/Cache.java:48-79 | A sweep dispatches only expiries and removals, and only of entries of the cache |
| `Caching.Cache.ExpireStep` | src/main/java/com/snac/data/runtime/caching/Cache.java:49-62 | When `expires` is on, reports `OnExpire` for each already-expired entry at least the threshold old, in order; no entry, flag or time changes |
| `Caching.SweepReportsOnlyExpired` | src/main/java/com/snac/data/runtime/caching/Cache.java:52-58 | Every `OnExpire` a sweep produces names an entry of the cache that was already expired: step 1 never expires a live entry |
| `Caching.Cache.DeleteExpiredStep` | src/main/java/com/snac/data/runtime/caching/Cache.java:64-72 | When `deleteAfterExpiration` is on, exactly the live entries remain, in order, and each expired entry is reported as removed, in insertion order |
| `Caching.ExpiredRemovalResult` | src/main/java/com/snac/data/runtime/caching/Cache.java:67-68 | The entry-by-entry removal of expired entries, from any position, keeps the live entries and reports the expired rest of the snapshot |
| `Caching.ExpiredRemovalWhole` | src/main/java/com/snac/data/runtime/caching/Cache.java:67-68 | Over the whole snapshot, it keeps the live entries (still without repetitions) and reports every expired one |
| `Caching.Cache.EvictStep` | src/main/java/com/snac/data/runtime/caching/Cache.java:74-79 | When index deletion is on and there are more than `deleteIndexAfter` entries, exactly the first entry is removed and reported; otherwise nothing changes |
| `Caching.Cache.Tick` | src/main/java/com/snac/data/runtime/caching/Cache.java:48-80 | One sweep leaves `SweptEntries` and appends `SweepEvents` (step 1's expiries, step 2's removals, step 3's eviction, in that order), with no entry's fields changed |
| `Caching.SweepLeavesNoExpired` | src/main/java/com/snac/data/runtime/caching/Cache.java:64-79 | With delete-after-expiration on, no expired entry survives a sweep |
| `Caching.SweepEvictsOnlyOne` | src/main/java/com/snac/data/runtime/caching/Cache.java:74-79 | A cache two or more entries over its index limit loses only its first entry per sweep and is still over the limit |
| `Caching.CacheBuilder.constructor` | src/main/java/com/snac/data/runtime/caching/Cache.java:237-243 | The defaults: nothing expires, one minute, no deletion, age from creation, no index deletion, limit 100 |
| `Caching.CacheBuilder.ObjectsExpires` | src/main/java/com/snac/data/runtime/caching/Cache.java:261-264 | Sets only `expires` |
| `Caching.CacheBuilder.ObjectsExpiresAfter` | src/main/java/com/snac/data/runtime/caching/Cache.java:266-270 | Sets only the duration and its unit |
| `Caching.CacheBuilder.DeleteObjectsWhenExpired` | src/main/java/com/snac/data/runtime/caching/Cache.java:272-275 | Sets only `deleteAfterExpiration` |
| `Caching.CacheBuilder.ObjectsOnlyExpiresWhenUnused` | src/main/java/com/snac/data/runtime/caching/Cache.java:277-280 | Sets only `onlyExpireWhenUnused` |
| `Caching.CacheBuilder.DeleteOldIndexes` | src/main/java/com/snac/data/runtime/caching/Cache.java:282-285 | Sets only `deleteOldIndexes` |
| `Caching.CacheBuilder.DeleteIndexAfter` | src/main/java/com/snac/data/runtime/caching/Cache.java:287-290 | Sets only `deleteIndexAfter` |
| `Caching.CacheBuilder.Build` | src/main/java/com/snac/data/runtime/caching/Cache.java:292-297 | A fresh, empty cache with the builder's seven current settings |
| `Images.ImageLoader.constructor` | src/main/java/com/snac/graphics/ImageLoader.java:19-21 | The loader wraps the given cache and has loaded nothing |
| `Images.ImageLoader.Cache` | src/main/java/com/snac/graphics/ImageLoader.java:48-52 | Appends exactly one entry after the unchanged old ones: key `name`, the image, both times `now`, not expired. Logs its `OnAdd` and returns the image unchanged |
| `Images.ImageLoader.Lookup` | src/main/java/com/snac/graphics/ImageLoader.java:28-29 | `contains` then `get`: the value of the first entry named `name`, or none. Only that entry's `lastUpdated` becomes `now`, and no expiry flag changes |
| `Images.ImageLoader.GetCachedOrLoadImage` | src/main/java/com/snac/graphics/ImageLoader.java:27-32 | A hit returns the cached image; entries and events are unchanged, and only the first entry named `name` is marked used. A miss returns the given image, appended once as a new entry (times `now`, not expired) with its `OnAdd`, and then found under `name`; the old entries are untouched |
| `Images.ImageLoader.GetCachedOrLoadNamed` | src/main/java/com/snac/graphics/ImageLoader.java:34-39 | `load(path)` runs exactly when `name` is absent. A hit returns the cached image and adds nothing; a miss caches and returns the loaded image, with the same entry, event and use-time effects as above |
| `Images.ImageLoader.GetCachedOrLoad` | src/main/java/com/snac/graphics/ImageLoader.java:23-25 | The same, with the decimal text of the path's hash code as the name |
| `Images.ImageLoader.GetCached` | src/main/java/com/snac/graphics/ImageLoader.java:41-46 | The cached image or the fallback. Never adds an entry, never logs, never loads; only the first entry named `name` is marked used |
| `Images.HashName` | src/main/java/com/snac/graphics/ImageLoader.java:24 | The name is well-formed decimal text that reads back as the path's `hashCode` |
| `Images.HashNameCollision` | src/main/java/com/snac/graphics/ImageLoader.java:23-25 | Two paths share a cache name exactly when their hash codes are equal |
| `JavaLang.Div` | src/main/java/com/snac/core/gameobject/AbstractObjectBase.java:224-225 | Java's `/` by a positive divisor: the remainder has the dividend's sign and is smaller than the divisor |
| `JavaLang.DivOdd` | src/main/java/com/snac/core/gameobject/AbstractObjectBase.java:224-225 | Rounding toward zero commutes with negation and never grows the magnitude |
| `JavaLang.DivMonotone` | src/main/java/com/snac/data/runtime/caching/Cache.java:54 | Division by a positive constant is monotone, also across zero |
| `JavaLang.Wrap32` | src/main/java/com/snac/graphics/ImageLoader.java:24 | The result is a 32-bit int congruent to the input modulo 2^32 |
| `JavaLang.CodeUnits` | src/main/java/com/snac/graphics/ImageLoader.java:24 | A character below U+10000 is one UTF-16 code unit; one above it is a high surrogate followed by a low surrogate |
| `JavaLang.Utf16` | src/main/java/com/snac/graphics/ImageLoader.java:24 | The code units a Java string holds: at least one per character, each a 16-bit value |
| `JavaLang.Utf16RoundTrip` | src/main/java/com/snac/graphics/ImageLoader.java:24 | Decoding the code units gives the string back |
| `JavaLang.UnitsHash` | src/main/java/com/snac/graphics/ImageLoader.java:24 | The `31 * h + u` fold over code units is a 32-bit int |
| `JavaLang.StringHash` | src/main/java/com/snac/graphics/ImageLoader.java:24 | `String.hashCode` is a 32-bit int, computed over the string's UTF-16 code units |
| `JavaLang.SupplementaryHash` | src/main/java/com/snac/graphics/ImageLoader.java:24 | U+1F600 hashes as its surrogate pair: `31 * 0xD83D + 0xDE00 = 1772899` |
| `JavaLang.UnitsHashIsPolynomial` | src/main/java/com/snac/graphics/ImageLoader.java:24 | The wrapped fold agrees with the polynomial `u[0]*31^(n-1) + ... + u[n-1]` modulo 2^32 |
| `JavaLang.StringHashIsPolynomial` | src/main/java/com/snac/graphics/ImageLoader.java:24 | `String.hashCode` agrees with that polynomial over the string's code units, modulo 2^32 |
| `JavaLang.DecimalText` | src/main/java/com/snac/graphics/ImageLoader.java:24 | `String.valueOf(int)` is well-formed decimal text that starts with a minus sign exactly for negatives |
| `JavaLang.DecimalRoundTrip` | src/main/java/com/snac/graphics/ImageLoader.java:24 | Parsing the decimal text gives the number back |
| `JavaLang.DecimalTextInjective` | src/main/java/com/snac/graphics/ImageLoader.java:24 | Different numbers have different decimal texts |
| `Geometry.Overlaps` | src/main/java/com/snac/util/HitBox.java:31-36 | The inclusive test on both axes; for boxes of non-negative size that pass it, the corner (larger x, larger y) lies in both |
| `Geometry.OverlapsSymmetric` | src/main/java/com/snac/util/HitBox.java:31-36 | The intersection test gives the same answer whichever box asks |
| `Geometry.OverlapsSelf` | src/main/java/com/snac/util/HitBox.java:31-36 | A box of non-negative size intersects itself |
| `Geometry.TouchingEdgesOverlap` | src/main/java/com/snac/util/HitBox.java:31-36 | Boxes that only share an edge intersect: the test is inclusive |
| `Geometry.OverlapsMeansCommonPoint` | src/main/java/com/snac/util/HitBox.java:31-36 | For non-negative sizes, intersecting means exactly that some point lies in both closed rectangles |
| `Geometry.HitBox.constructor` | src/main/java/com/snac/util/HitBox.java:20-25 | The four fields as given, and not visible |
| `Geometry.HitBox.Intersects` | src/main/java/com/snac/util/HitBox.java:31-36 | `intersects(x, y, w, h)` is the overlap test between the given box and this one's bounds |
| `Geometry.HitBox.IntersectsBox` | src/main/java/com/snac/util/HitBox.java:27-29 | `intersects(HitBox)` is the overlap test between this box's bounds and the other's |
| `Geometry.IntersectsBoxSymmetric` | src/main/java/com/snac/util/HitBox.java:27-29 | `intersects(HitBox)` is the four-field test on the other box's bounds, and is symmetric |
| `Geometry.HitBox.Resize` | src/main/java/com/snac/util/HitBox.java:38-41 | Sets width and height; the position cannot change |
| `Geometry.HitBox.Move` | src/main/java/com/snac/util/HitBox.java:43-46 | Adds the offsets to x and y; the size cannot change |
| `Geometry.HitBox.SetBounds` | src/main/java/com/snac/util/HitBox.java:48-53 | The bounds become the four given values |
| `Geometry.HitBox.SetBoundsFrom` | src/main/java/com/snac/util/HitBox.java:55-60 | The bounds become the other box's old bounds, and the other box is unchanged |
| `Geometry.HitBox.GetLocation` | src/main/java/com/snac/util/HitBox.java:62-65 | The point (x, y) |
| `Rendering.IndexFrom` | src/main/java/com/snac/graphics/Renderable.java:25-30 | The loop from position `i`: the first later position holding the priority, or 0 when none does |
| `Rendering.IndexOf` | src/main/java/com/snac/graphics/Renderable.java:24-31 | The position of the priority in `values()`, and 0 for null |
| `Rendering.IsHigherThan` | src/main/java/com/snac/graphics/Renderable.java:20-22 | `isHigherThan` compares ordinals, with null counted as ordinal 0 |
| `Rendering.IndexOfIsOrdinal` | src/main/java/com/snac/graphics/Renderable.java:24-31 | The scan finds every priority at its ordinal |
| `Rendering.NullRanksLowest` | src/main/java/com/snac/graphics/Renderable.java:30 | Against null, `isHigherThan` answers as it does against LOWEST |
| `Rendering.HigherMeansLaterDeclared` | src/main/java/com/snac/graphics/Renderable.java:20-22 | `isHigherThan` holds exactly when the first priority is declared later than the second |
| `Rendering.HigherIrreflexive` | src/main/java/com/snac/graphics/Renderable.java:20-22 | No priority is higher than itself |
| `Rendering.HigherAsymmetric` | src/main/java/com/snac/graphics/Renderable.java:20-22 | Of two priorities, at most one is higher than the other |
| `Rendering.HigherTransitive` | src/main/java/com/snac/graphics/Renderable.java:20-22 | Higher than a priority that is higher than a third means higher than the third |
| `Rendering.HigherTotal` | src/main/java/com/snac/graphics/Renderable.java:20-22 | Two different priorities are always comparable |
| `Rendering.DeclarationOrder` | src/main/java/com/snac/graphics/Renderable.java:13-18 | LOWEST < LOW < DEFAULT < HIGH < HIGHEST |
| `Rendering.Place` | src/main/java/com/snac/graphics/Canvas.java:108-112 | One insertion grows the list by one, adds the renderable and drops nothing |
| `Rendering.PlaceAll` | src/main/java/com/snac/graphics/Canvas.java:106-114 | The insertion loop never shrinks the list and drops nothing already in it |
| `Rendering.Arrange` | src/main/java/com/snac/graphics/Canvas.java:98-120 | The order `sortRenderables` produces has as many renderables as the list it sorts |
| `Rendering.PlacePosition` | src/main/java/com/snac/graphics/Canvas.java:108-112 | One insertion adds one element: at index `layer` (with the rest around it unchanged) when the list is longer than `layer`, else at the end |
| `Rendering.PlaceCases` | src/main/java/com/snac/graphics/Canvas.java:108-112 | The insertion is the two list operations the source uses: `add(layer, r)` or `add(r)` |
| `Rendering.PlaceMultiset` | src/main/java/com/snac/graphics/Canvas.java:108-112 | One insertion adds exactly that renderable to the multiset |
| `Rendering.PlaceAllMultiset` | src/main/java/com/snac/graphics/Canvas.java:106-114 | The insertion loop adds exactly the layered renderables it visits |
| `Rendering.PlaceKeepsUnlayered` | src/main/java/com/snac/graphics/Canvas.java:108-112 | One insertion leaves the unlayered renderables and their order untouched |
| `Rendering.PlaceAllKeepsUnlayered` | src/main/java/com/snac/graphics/Canvas.java:106-114 | The whole loop leaves the unlayered renderables and their order untouched |
| `Rendering.PlaceAllConcat` | src/main/java/com/snac/graphics/Canvas.java:106-114 | Running the loop over two lists in turn is running it over their concatenation |
| `Rendering.PlaceAllSkipsUnlayered` | src/main/java/com/snac/graphics/Canvas.java:106-107 | The loop acts only on layered renderables: dropping the others first changes nothing |
| `Rendering.LayeredInsertionOrder` | src/main/java/com/snac/graphics/Canvas.java:105-114 | The layered renderables are inserted in ascending layer order, and they are exactly those of the input |
| `Rendering.ArrangePermutes` | src/main/java/com/snac/graphics/Canvas.java:98-120 | Sorting only reorders: the multiset of renderables is preserved |
| `Rendering.ArrangeUnlayeredByPriority` | src/main/java/com/snac/graphics/Canvas.java:101-103 | After sorting, the unlayered renderables are exactly those of the input, in non-decreasing priority order, with ties in their former order |
| `Rendering.Canvas.constructor` | src/main/java/com/snac/graphics/Canvas.java:33-37 | Both lists start empty |
| `Rendering.Canvas.AddRenderable` | src/main/java/com/snac/graphics/Canvas.java:44-47 | The list is the arrangement of the old list plus the new renderable; its multiset gains exactly that one |
| `Rendering.Canvas.RemoveRenderable` | src/main/java/com/snac/graphics/Canvas.java:54-57 | The list is the arrangement of the old list without its first occurrence; its multiset loses exactly one occurrence |
| `Rendering.Canvas.GetRenderables` | src/main/java/com/snac/graphics/Canvas.java:64-71 | A copy equal to the list |
| `Rendering.Canvas.ClearRenderables` | src/main/java/com/snac/graphics/Canvas.java:88-90 | The list is empty |
| `Rendering.Canvas.SortRenderables` | src/main/java/com/snac/graphics/Canvas.java:98-120 | The step-by-step sort ends with `Arrange` of the old list, a permutation of it |
| `Rendering.Canvas.Render` | src/main/java/com/snac/graphics/Canvas.java:127-144 | The buffer becomes a copy of the list, and the drawn renderables are its visible ones in list order |
| `Rendering.RenderDrawsVisible` | src/main/java/com/snac/graphics/Canvas.java:136-143 | Everything drawn is visible and on the canvas, and every visible renderable on the canvas is drawn |
| `Animations.Advance` | src/main/java/com/snac/graphics/animation/Animation.java:101 | One step of the index keeps a legal index legal |
| `Animations.AdvanceTimes` | src/main/java/com/snac/graphics/animation/Animation.java:98-105 | Any number of steps keep a legal index legal |
| `Animations.AdvanceKeepsIndexOk` | src/main/java/com/snac/graphics/animation/Animation.java:101 | One step keeps the index legal, and it names a frame exactly when there are frames |
| `Animations.AdvanceTimesIsModulo` | src/main/java/com/snac/graphics/animation/Animation.java:101 | `k` steps from frame `i` land on frame `(i + k) mod n` |
| `Animations.FullCycle` | src/main/java/com/snac/graphics/animation/Animation.java:101 | As many steps as there are frames bring the index back to where it was |
| `Animations.Animation.constructor` | src/main/java/com/snac/graphics/animation/Animation.java:18-22 | Index 0, not paused, `lastFrameChange` 0 |
| `Animations.Animation.Active` | src/main/java/com/snac/graphics/animation/Animation.java:99-100 | An animation that advances is valid and not paused |
| `Animations.Animation.UpdateIndex` | src/main/java/com/snac/graphics/animation/Animation.java:98-105 | Inactive (invalid, paused or gated): index unchanged and no frame change. Active: index advances cyclically, then the frame change is reported, or the out-of-range failure, which happens exactly for an active animation without frames. A legal index stays legal |
| `Animations.GateAlwaysOpen` | src/main/java/com/snac/graphics/animation/Animation.java:100 | With `lastFrameChange` at its never-changed 0, an animation advances exactly when it is valid and not paused |
| `Animations.Animation.JumpTo` | src/main/java/com/snac/graphics/animation/Animation.java:112-117 | The index becomes `i` (and a frame change is reported) exactly when `0 <= i < len`; otherwise nothing changes. A legal index stays legal |
| `Animations.Animation.Reset` | src/main/java/com/snac/graphics/animation/Animation.java:122-125 | The index is 0, and frame 0 is reported, or the out-of-range failure without frames |
| `Animations.Animation.Pause` | src/main/java/com/snac/graphics/animation/Animation.java:159-162 | Paused |
| `Animations.Animation.Resume` | src/main/java/com/snac/graphics/animation/Animation.java:167-170 | Not paused |
| `Animations.AnimationHandler.constructor` | src/main/java/com/snac/graphics/animation/AnimationHandler.java:37-43 | No animations, and the renderer's canvas |
| `Animations.AnimationHandler.Play` | src/main/java/com/snac/graphics/animation/AnimationHandler.java:49-57 | Appends the animation and adds it to the canvas even when it does not validate; the warning is given exactly then |
| `Animations.AnimationHandler.Stop` | src/main/java/com/snac/graphics/animation/AnimationHandler.java:78-85 | A running animation loses one occurrence and leaves the canvas; otherwise list and canvas are unchanged |
| `Animations.AnimationHandler.StopByClass` | src/main/java/com/snac/graphics/animation/AnimationHandler.java:63-71 | Exactly the animations of another class remain, in order, and the canvas is that of stopping each of class `c` in turn |
| `Animations.AnimationHandler.GetAnimations` | src/main/java/com/snac/graphics/animation/AnimationHandler.java:90-92 | A copy equal to the list |
| `Animations.AnimationHandler.Tick` | src/main/java/com/snac/graphics/animation/AnimationHandler.java:98-103 | Updates run in list order until the first out-of-range failure, which happens exactly at an active animation without frames; so when every animation has frames, every one is reached. Each reached call is idle exactly for an inactive animation; each active animation advances once per occurrence reached; every index stays legal; nothing else changes |
| `Attachments.Attachable.constructor` | src/main/java/com/snac/util/Attachable.java:40-45 | No parent and no children |
| `Attachments.Attachable.IsAttached` | src/main/java/com/snac/util/Attachable.java:84-86 | Attached means having a parent; `AddAttachment` and `RemoveAttachment` state its value afterwards |
| `Attachments.Attachable.AddAttachment` | src/main/java/com/snac/util/Attachable.java:55-66 | An unattached `a` becomes a child with this as parent; an attached one only draws the warning and nothing changes |
| `Attachments.Attachable.RemoveAttachment` | src/main/java/com/snac/util/Attachable.java:73-79 | A child is removed and loses its parent; a non-child changes nothing |
| `Attachments.Attachable.GetRootParent` | src/main/java/com/snac/util/Attachable.java:95-106 | The object itself without a parent, otherwise the last object of its parent chain, which has no parent |
| `Attachments.ParentChainUnique` | src/main/java/com/snac/util/Attachable.java:95-106 | The parent links fix the chain, so the root is unique |
| `Attachments.SelfAttachedHasNoRoot` | src/main/java/com/snac/util/Attachable.java:95-106 | An object attached to itself (which `addAttachment` allows) has no chain to a root, so the walk never ends |
| `GameObjects.ResolveSize` | src/main/java/com/snac/core/gameobject/AbstractObjectBase.java:202-203 | Sizes below 1 become 20, others are kept; the result is at least 1 |
| `GameObjects.Distance` | src/main/java/com/snac/core/gameobject/AbstractObjectBase.java:224-225 | The larger of the two axis distances from the window centre, found with int division |
| `GameObjects.DistanceWithin` | src/main/java/com/snac/core/gameobject/AbstractObjectBase.java:224-225 | Within `r` exactly when the square of radius `r` around the centre holds the position |
| `GameObjects.HookOldPosition` | src/main/java/com/snac/core/gameobject/AbstractObjectBase.java:219 | The first statement of `onPositionChange` throws exactly when the position field or the attachment set is null; otherwise it reads the current position |
| `GameObjects.ConstructAsWritten` | src/main/java/com/snac/core/gameobject/AbstractObjectBase.java:189-207 | The constructor as written, with the base hook: it runs while both fields are still null, so construction never completes; if it did, it would leave the fields the corrected constructor sets |
| `GameObjects.ConstructorAlwaysThrows` | src/main/java/com/snac/core/gameobject/AbstractObjectBase.java:189-197 | As written, constructing any game object that keeps the base `onPositionChange` (`PhysicalObject` included) throws |
| `GameObjects.GameObject.constructor` | src/main/java/com/snac/core/gameobject/AbstractObjectBase.java:189-207 | The evidently intended construction: at the given position, resolved size, visible, not disabled, the default layer, distances 0, no manager; the hit box is the rectangle at that position with that size |
| `GameObjects.GameObject.OnPositionChange` | src/main/java/com/snac/core/gameobject/AbstractObjectBase.java:218-233 | Without a manager or with a window width of -1 or less, nothing changes; otherwise `visible` becomes `distance < renderDistance` and `disabled` becomes `distance > tickDistance`, each only when its limit is positive |
| `GameObjects.GameObject.SetPosition` | src/main/java/com/snac/core/gameobject/AbstractObjectBase.java:190-196 | The hook runs on the old position, then the position is the new one. With a manager, a window and a positive tick distance, the object ends up disabled exactly when its old position lies outside the square of that radius around the centre |
| `GameObjects.GameObject.InternalUpdate` | src/main/java/com/snac/core/gameobject/AbstractObjectBase.java:295-298 | `onUpdate` runs exactly when the object is not disabled |
| `GameObjects.GameObject.InternalCreate` | src/main/java/com/snac/core/gameobject/AbstractObjectBase.java:306-311 | The manager is recorded and both distances are half the screen width plus the width plus 200 |
| `GameObjects.GameObjectManager.constructor` | src/main/java/com/snac/core/gameobject/GameObjectManager.java:23-30 | No objects, and a fresh 1x1 position finder |
| `GameObjects.GameObjectManager.AddGameObject` | src/main/java/com/snac/core/gameobject/GameObjectManager.java:32-46 | Exactly `g` joins the set, it is initialised for this manager, and the canvas is re-arranged with it added |
| `GameObjects.GameObjectManager.RemoveGameObject` | src/main/java/com/snac/core/gameobject/GameObjectManager.java:48-62 | Exactly `g` leaves the set, and the canvas is re-arranged without it |
| `GameObjects.GameObjectManager.ContainsGameObject` | src/main/java/com/snac/core/gameobject/GameObjectManager.java:88-95 | True exactly when `g` is registered |
| `GameObjects.GameObjectManager.Collides` | src/main/java/com/snac/core/gameobject/GameObjectManager.java:119-131 | True exactly when some registered object's box intersects that of `g`, `g` included |
| `GameObjects.RegisteredCollidesWithItself` | src/main/java/com/snac/core/gameobject/GameObjectManager.java:119-131 | A registered object of positive size always collides with itself |
| `GameObjects.GameObjectManager.GetCollisions` | src/main/java/com/snac/core/gameobject/GameObjectManager.java:133-150 | Empty exactly when nothing collides; otherwise each registered object whose box intersects that of `g`, exactly once |
| `GameObjects.GameObjectManager.Collect` | src/main/java/com/snac/core/gameobject/GameObjectManager.java:138-149 | The registered objects intersecting the box, each exactly once |
| `GameObjects.GameObjectManager.GetObjectsAt` | src/main/java/com/snac/core/gameobject/GameObjectManager.java:75-82 | The finder box moves to (x, y) and stays 1x1; the result is each registered object intersecting it, exactly once |
| `GameObjects.GameObjectManager.Tick` | src/main/java/com/snac/core/gameobject/GameObjectManager.java:64-73 | `onUpdate` runs for exactly the registered objects that are not disabled; membership does not change |
| `GameObjects.GameObjectManager.GetGameObjects` | src/main/java/com/snac/core/gameobject/GameObjectManager.java:152-154 | A copy equal to the registered objects |

## Left out

- **Locks and threads.** The read/write locks, the `synchronized` blocks and the shared `Caching-Thread` scheduler loop (`Cache.java:245-259`) are not modelled, and neither is the caches registry. Every operation runs to completion before the next one starts.
- **Lock upgrades.** `remove(T)` (`Cache.java:148-151`) and sweep step 2 (`Cache.java:65-68`) call a write-locking method while holding the read lock. A `ReentrantReadWriteLock` cannot upgrade, so the running program would block there. The model describes the intended sequential removal.
- **Wall clock.** `System.currentTimeMillis` becomes a `now` parameter.
- Caching.ToMillis: `TimeUnit`'s saturation at the `long` range is not modelled, and neither is the `long` overflow of `now - timeAdded`.
- **Listeners.** `register`, `unregister` and the listener implementations are not modelled. One dispatch is one event, whatever the number of listeners. A listener that throws is not modelled.
- **`stream()` and `forEach`.** The stream over a copy is modelled only where the operations above use it, as a snapshot of the entries.
- **Null values and keys.** These are not modelled: a null return is `None`. So `contains(String)` is not modelled as false for a key whose stored value is null.
- **The no-argument `ImageLoader` constructor** (`ImageLoader.java:11-17`). It calls builder methods that `CacheBuilder` does not have, so only `ImageLoader(Cache)` is modelled. The log line in `cache` is not modelled.
- **Excluded files.**
  - The `Loop` classes, `Tick.java` and `TryCatch.java` are not part of this model.
  - Of `TryCatch.tryFinally`, only its effect on `AnimationHandler.tick` is modelled: the first failure ends the pass and is swallowed.
- **Floating point.** `Vector2D`, `Direction` and the fractional position are not modelled. A game object's position is its rounded integer position.
- **Drawing.** Renderers, brushes and drawing are not modelled. This includes `Animation.render`, `getLocation(frame)` and `onRender`. `Render` returns the sequence drawn instead.
- **Callback hooks.** `onFrameChange`, `onPlay`, `onStop`, `onPause`, `onCreate`, `onDestroy`, `onUpdate`, `onSelfAttach`, `onSelfDetach` and `onPositionChanged` are not modelled as calls. A frame change is the `Outcome` an update returns. `onUpdate` running is the `updated` result.
- **Attachments of game objects.** `AbstractObjectBase`'s `attach`/`detach` are not modelled: the attachment set there is `Set.of()`, so adding to or removing from it throws. Once an object exists, `updateAttachments` therefore has nothing to move, and only its first step (reading the position and locking the set) is modelled, in `HookOldPosition`. During construction that step throws when the base hook runs; see Findings.
- GameObjects.GameObject.constructor: models the evidently intended construction. As written, the constructor throws `NullPointerException` for every object that keeps the base `onPositionChange`, `PhysicalObject` (`PhysicalObject.java:17-18`) included; see Findings and `ConstructorAlwaysThrows`. A subclass whose override of the hook never calls the base one is constructed normally; such overrides are not modelled.
- **`GameObjectManager` UUID lookups** (lines 84-117) are not modelled, and neither are `getNextUUID` and `getGameObjectUuids`.
- Geometry.HitBox.GetLocation: returns a new point value. The source moves one shared `location` object per box and returns it (`HitBox.java:18`, `62-65`), so a caller that keeps an earlier result sees it change on the next call. That aliasing is not captured.
- **The shared hit box.** `getHitBox` writes the object's shared `HitBox` before returning it. The model uses the rectangle value it ends up holding, so aliasing of that box is not modelled.
- Rendering.Arrange: renderables have non-null priorities, because the comparator would throw on null. Renderables are compared as values (id, priority and layer), where Java compares by reference.
- **`Canvas.streamRenderables`** is not modelled.
- **32-bit overflow.** Overflow in the `HitBox` sums, in the distance arithmetic and in `tickDistance` is not modelled. These use unbounded integers.
- **Screen size.** `Toolkit.getDefaultToolkit().getScreenSize()` becomes a `screenWidth` parameter.
- **`Animations.Animation`.** Its frames, delay, `checkValidation()` result and class are constants of the object, as the subclass fixes them. The unused `counter` field is not modelled.
- Attachments.Attachable.GetRootParent: the asynchronous `CompletableFuture` is modelled as a synchronous walk. It requires the (ghost) parent chain, so only acyclic chains are covered. `SelfAttachedHasNoRoot` shows that a self-attached object has no such chain.
- GameObjects.GameObject.OnPositionChange: as in the source, the distance is measured from the position *before* the move, because the hook runs before the new coordinates are stored.

## Findings

| source | as written | input that shows it | evidently intended | confidence | as-written member | corrected member |
|---|---|---|---|---|---|---|
| src/main/java/com/snac/core/gameobject/AbstractObjectBase.java:189-207 | The position vector is an anonymous `Vector2D` subclass whose `set` calls `onPositionChange` first. Its copy constructor (`Vector2D.java:51-52`) calls that `set` before `this.position` and `this.attachments` are assigned, and `onPositionChange` reads `position.getX()` at line 219 | Any construction of an object that keeps the base `onPositionChange` (e.g. a `PhysicalObject` subclass), e.g. `position = null`, `width = height = 0`; `GameObjects.ConstructorAlwaysThrows` covers every argument | The object is built at the given position with the resolved size, visible and enabled | not executed | `GameObjects.ConstructAsWritten` | `GameObjects.GameObject.constructor` |
