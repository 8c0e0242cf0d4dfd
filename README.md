# Biz-eKYC logic, modelled in Dafny

This project models the self-contained logic of the Biz-eKYC React Native app and proves what that logic promises. The screens, animations and native bridges are not modelled. The modelled parts are:

- **The authenticated request pipeline** (`src/services/api.ts`). It covers URL resolution against the configured base URL and header preparation (`content-type`, `x-locale`, the bearer token, the `doRefresh` marker). It also covers the auth-failure test and the branch that waits for a running refresh, refreshes the session under a lock, or logs out.
- **The Redux slices** `auth`, `ui` and `personalInfo`, the modal open-state tracker, and the persisted-state extractor.
- **Pure utilities:** `shallowCompare`, `paramsCleaner`, `addColorAlpha`, the locale-code table, and the Sentry scrubbing of URLs and events.
- **Small stateful helpers:** the key generator, the event emitter, throttle and debounce, the refresh and scroll callback registries of `AppScreen`, the navigation-bar props stack, `useAppState` and `useRefreshControl`.
- **List paging** of `AppList`, and the row grouping of the equal-height grid list.
- **The release-versioning rules** of `scripts/version.js`.

Each core source file becomes one module, in a file named after it. `Wrappers`, `Text`, `Seqs`, `JsonValue`, `Slots` and `Timeline` are shared helpers.

Code that updates state in place is modelled as a class. This covers the `ui` slice, the key generator, the callback registries, the props stack, the Sentry event, the `Headers` object and the API client. Each of its methods states the whole new state. Code written with expressions is modelled as functions, with lemmas about them.

Library behaviour becomes explicit parameters of the model:
- the HTTP transport;
- zod's absolute-URL check;
- `encodeURIComponent` and `JSON.stringify`;
- `isSafe`;
- `scrubString`;
- the semantic-versioning predicates `semver.valid` and `semver.lt`. The model applies `lt` only to versions `valid` accepts; a current version it rejects makes `lt` throw, which ends the run as a failure.

Clocks and timers are inputs too: `Date.now` is a `now` argument, and the firing of a timer is a method call.

## Model

| member | source | states |
|---|---|---|
| I18n.LocaleCode | src/i18n/i18n.ts:33-35 | the locale code is always one of `vi`, `en`, `ja` |
| I18n.LocaleCodeTable | src/i18n/i18n.ts:10-14 | `vn` maps to `vi`, `en` to `en`, `jp` to `ja`, and any other language falls back to `en` |
| AuthStore.Reduce | src/store/auth.ts:17-22 | `updateAuthState` makes the payload the whole new state; `logout` leaves both tokens undefined |
| AuthStore.LogoutResets | src/store/auth.ts:8-22 | logout yields the initial state from any state, is idempotent, and leaves the user unauthenticated |
| AuthStore.UpdateReplaces | src/store/auth.ts:17-25 | an update does not merge: the refresh token is exactly the payload's, and the user is authenticated iff the payload's token is truthy |
| UiStore.UiState.constructor | src/store/ui.ts:10-14 | counter 0, empty order, no open modal, no header height |
| UiStore.UiState.SetHeaderHeight | src/store/ui.ts:20-22 | only the header height changes |
| UiStore.UiState.SetOpenModal | src/store/ui.ts:23-27 | the open count goes up by one, the id is appended to the order and becomes the counter; nothing else changes |
| UiStore.UiState.SetCloseModal | src/store/ui.ts:28-31 | the open count goes down by one, whether or not the id was open, and every occurrence of the id leaves the order |
| UiStore.OpenThenCloseRestores | src/store/ui.ts:23-31 | opening an id that is not in the order and closing it again restores the order |
| UiStore.OpenThenClose | src/store/ui.ts:23-31 | dispatching open and then close for an id not in the order leaves the order, the open count and the header height as they were, with the counter at that id |
| UiStore.CloseKeepsOrder | src/store/ui.ts:28-31 | closing keeps the remaining ids in increasing order, below the counter, as a subsequence of the old order |
| UiStore.OpenNextIsTopmost | src/store/ui.ts:23-27 | opening the id after the counter keeps the order increasing and puts that id last, above all others |
| PersonalInfo.PersonalInfoSlice.constructor | src/store/personalInfo.ts:10-15 | the state starts as the sample record |
| PersonalInfo.PersonalInfoSlice.SetPersonalInfo | src/store/personalInfo.ts:21-23 | the payload becomes the state |
| PersonalInfo.PersonalInfoSlice.UpdatePersonalInfo | src/store/personalInfo.ts:24-26 | the state becomes the old state with the payload's present fields assigned |
| PersonalInfo.AssignOverwritesPresentFields | src/store/personalInfo.ts:24-26 | each present field takes the payload's value, and each absent field keeps its old value |
| PersonalInfo.AssignEmptyAndIdempotent | src/store/personalInfo.ts:24-26 | an empty payload changes nothing, and assigning the same payload twice equals assigning it once |
| PersonalInfo.AssignCompleteIsSet | src/store/personalInfo.ts:21-26 | an update with every field present gives the same state as a set |
| PersistState.Extract | src/store/utils/extractReduxPersistState.ts:1-18 | the extraction has no more entries than its input |
| PersistState.ExtractKeeps | src/store/utils/extractReduxPersistState.ts:4-12 | `_persist` entries are kept unchanged, and object entries with a non-empty extraction are kept with that extraction |
| PersistState.ExtractDrops | src/store/utils/extractReduxPersistState.ts:8-15 | any other entry's key is absent from the result |
| PersistState.ExtractKeysSubsequence | src/store/utils/extractReduxPersistState.ts:2-3 | the result's keys are a subsequence of the input's keys, in input order |
| PersistState.ExtractWithoutPersistIsEmpty | src/store/utils/extractReduxPersistState.ts:8-15 | a tree with no `_persist` key at any depth extracts to an empty object |
| PersistState.ExtractIdempotent | src/store/utils/extractReduxPersistState.ts:1-18 | extracting twice gives the same result as extracting once |
| ModalTracker.Tracker.constructor | src/components/AppModal/utils/useTrackModalOpenState.ts:8-9 | not visible, no modal id yet |
| ModalTracker.Tracker.Run | src/components/AppModal/utils/useTrackModalOpenState.ts:11-24 | on a rising edge the modal takes the id one above the store's counter and is opened; on a falling edge with an id that id is closed; otherwise nothing is dispatched; the store's order stays increasing and below the counter, and a newly opened modal is last |
| AppState.Initial | src/utils/useAppState.ts:4 | the start state has the status at start-up and counts as foreground |
| AppState.ForegroundOnReturn | src/utils/useAppState.ts:11-17 | after any non-empty series of changes the status is the last one, and the app is in the foreground iff that last change moved it from a non-active status to `active` |
| AppState.AppStateHook.constructor | src/utils/useAppState.ts:4-8 | the hook starts in the initial state |
| AppState.AppStateHook.AppStateChange | src/utils/useAppState.ts:11-17 | the status becomes the new one, and foreground holds iff the previous status was not active and the new one is |
| EventEmitter.Broadcast | src/utils/useEventEmitter.ts:16-18 | one delivery per listener, in list order, each with the emitted data |
| EventEmitter.SubscribeThenUnsubscribe | src/utils/useEventEmitter.ts:8-14 | subscribing and then unsubscribing leaves the same list as unsubscribing alone |
| EventEmitter.SubscribedListenerHears | src/utils/useEventEmitter.ts:8-18 | a listener that subscribed hears an emit once more than it would have without that subscription |
| EventEmitter.Emitter.constructor | src/utils/useEventEmitter.ts:6 | no subscribers |
| EventEmitter.Emitter.Subscribe | src/utils/useEventEmitter.ts:8-9 | the listener is appended |
| EventEmitter.Emitter.Unsubscribe | src/utils/useEventEmitter.ts:11-13 | every occurrence of the listener is removed, and the others keep their order |
| EventEmitter.Emitter.Emit | src/utils/useEventEmitter.ts:16-18 | the loop delivers the data to every current subscriber, in order |
| ShallowCompare.CompareFromMeaning | src/utils/shallowCompare.ts:22-34 | the key loop returns true iff every non-excepted key of the first object is an own key of the second with a `===` value |
| ShallowCompare.ShallowCompareMeaning | src/utils/shallowCompare.ts:12-34 | null equals only null; a non-null object never equals null; two objects are equal iff they have as many keys and agree on every non-excepted key of the first |
| ShallowCompare.SizesMustMatch | src/utils/shallowCompare.ts:15-20 | objects with different key counts are unequal, even when the extra keys are exceptions |
| ShallowCompare.ShallowCompareSymmetric | src/utils/shallowCompare.ts:7-35 | without exceptions the comparison is symmetric |
| ParamsCleaner.Clean | src/utils/paramsCleaner.ts:9-24 | no more pairs come out than entries went in |
| ParamsCleaner.Serialize | src/utils/paramsCleaner.ts:26-27 | each kept pair becomes `esc(k)=esc(v)`, in order |
| ParamsCleaner.CleanAppend | src/utils/paramsCleaner.ts:9-24 | cleaning works entry by entry: the pairs of a concatenation are the concatenated pairs, so order is kept |
| ParamsCleaner.CleanOneEntry | src/utils/paramsCleaner.ts:11-22 | null becomes undefined and is dropped when `isSafe` rejects undefined; an object is sent as its JSON text; a safe scalar is sent as its text; an unsafe scalar is dropped |
| ParamsCleaner.EmptyWhenNothingKept | src/utils/paramsCleaner.ts:22-27 | with no surviving pair the query string is empty |
| ParamsCleaner.RecordAndPairsAgree | src/utils/paramsCleaner.ts:9 | a record and a list of pairs with the same entries give the same string |
| ParamsCleaner.SplitRecoversPairs | src/utils/paramsCleaner.ts:26-27 | when the encoder never emits `&` or `=`, splitting the output on `&` and then on `=` recovers exactly the encoded kept pairs |
| ColorAlpha.HexRun | src/utils/addColorAlpha.ts:9-11 | `parseInt` reads the longest run of hex digits: all of the run is hex, and the run stops at a non-hex character or the end |
| ColorAlpha.TrimStart | src/utils/addColorAlpha.ts:9-11 | `parseInt` first skips leading white space, leaving a string that does not start with any |
| ColorAlpha.RemoveParens | src/utils/addColorAlpha.ts:17-23 | after `replaceAll(/[()]/g, '')` no parenthesis is left |
| ColorAlpha.MapRemoveParens | src/utils/addColorAlpha.ts:17-23 | every split part has its parentheses removed, and the number of parts is kept |
| ColorAlpha.HexColour | src/utils/addColorAlpha.ts:8-13 | `#RRGGBB` with six hex digits becomes `rgba(r, g, b, alpha)`, where each channel is the value of its two digits |
| ColorAlpha.HexChannel | src/utils/addColorAlpha.ts:9-11 | `parseInt(color.slice(k, k + 2), 16)` of two hex digits is their value |
| ColorAlpha.HexChannels | src/utils/addColorAlpha.ts:8-13 | a `#` colour whose three digit pairs read as `r`, `g`, `b` becomes `rgba(r, g, b, alpha)` with the values in decimal |
| ColorAlpha.OtherColoursUnchanged | src/utils/addColorAlpha.ts:8-27 | a colour starting with none of `#`, `rgb`, `hsl` comes back unchanged, and `#` is checked first |
| ColorAlpha.AsWrittenFunctionalColour | src/utils/addColorAlpha.ts:16-25 | as written, `name(a,b,c)` becomes `rgba`/`hsla` of `name + a`, `b`, `c`: the function name stays in the first component |
| ColorAlpha.AsWrittenComponents | src/utils/addColorAlpha.ts:17-23 | as written, the split components of `name(a,b,c)` are `name + a`, `b`, `c` |
| ColorAlpha.RgbKeepsFunctionName | src/utils/addColorAlpha.ts:16-18 | `addColorAlpha("rgb(1,2,3)", 0.5)` is `rgba(rgb1, 2, 3, 0.5)` |
| ColorAlpha.NameDispatch | src/utils/addColorAlpha.ts:8-22 | a colour starting `rgb(` or `hsl(` takes the matching branch, in both the as-written and the corrected function |
| ColorAlpha.FixedFunctionalColour | src/utils/addColorAlpha.ts:16-25 | in the corrected function, `rgb(a,b,c)` becomes `rgba(a, b, c, alpha)` and `hsl(a,b,c)` becomes `hsla(a, b, c, alpha)` |
| KeyGen.DefaultPrimitiveToKey | src/utils/keyGen.ts:9-11 | `undefined` has no key, `null` throws (`toString` of null), and a string is its own key |
| KeyGen.DefaultKey | src/utils/keyGen.ts:9-11 | the default renderer as a total function: it agrees with `defaultPrimitiveToKey` on primitives, throws exactly on `null`, and gives no key exactly for `undefined` and for objects, which `getKey` never passes it |
| KeyGen.KeyForInjective | src/utils/keyGen.ts:22-26 | different counter values give different keys |
| KeyGen.KeyGenerator.constructor | src/utils/keyGen.ts:13-20 | empty map, counter at -1, the given base name and primitive renderer |
| KeyGen.CreateDefaultKeyGen | src/utils/keyGen.ts:13-20 | `createKeyGen()` without options gives a fresh, valid generator with the base name `keyGen_`, the default renderer, no remembered keys and the counter at -1 |
| KeyGen.KeyGenerator.GetUniqueKey | src/utils/keyGen.ts:19-27 | the counter goes up by one, and the key is the base name followed by the new counter |
| KeyGen.KeyGenerator.GetKey | src/utils/keyGen.ts:30-44 | a primitive gets the renderer's key and nothing changes; a known object gets its remembered key; a new object gets a fresh key from the counter, which is remembered |
| KeyGen.DistinctObjectsDistinctKeys | src/utils/keyGen.ts:17-44 | two remembered objects never share a key |
| KeyGen.RememberedKeyNonEmpty | src/utils/keyGen.ts:35-38 | a remembered key is never empty, so the truthiness test on it always passes |
| Throttle.CallKeeps | src/utils/useThrottle.ts:7-49 | a call of either throttled function keeps the state invariant and never moves `lastUpdated` back |
| Throttle.TickKeeps | src/utils/useThrottle.ts:16-47 | a timer firing keeps the state invariant and never moves `lastUpdated` back |
| Throttle.LastUpdatedNeverDecreases | src/utils/useThrottle.ts:4-47 | when the clock never goes back, `lastUpdated` never decreases over any sequence of calls and timer firings |
| Throttle.ThrottleRunsSpaced | src/utils/useThrottle.ts:3-21 | `throttle` runs the callback at most once per `interval`: any two runs are at least `interval` apart |
| Throttle.FirstCall | src/utils/useThrottle.ts:12-41 | the first call to `throttle`'s function runs the callback; the first call to `delayThrottle`'s function only records the time |
| Throttle.ThrottledCallSchedules | src/utils/useThrottle.ts:8-48 | a call within `interval` of `lastUpdated` does not run and leaves one timer that will record the call's time |
| Throttle.DelayedRunKeepsTime | src/utils/useThrottle.ts:42-43 | `delayThrottle` runs the callback on a late enough call without updating `lastUpdated` |
| Throttle.Throttler.constructor | src/utils/useThrottle.ts:3-33 | no time recorded and no pending timer |
| Throttle.Throttler.Call | src/utils/useThrottle.ts:7-49 | the new closure state and whether the callback ran are those of one call step |
| Throttle.Throttler.Tick | src/utils/useThrottle.ts:16-47 | a due timer records the time of the call that scheduled it and is cleared |
| Debounce.CallStep | src/utils/useDebounce.ts:7-42 | every call leaves `busy` set and one timer, due `bounceRate` later; the callback runs at once exactly when `debounce` was not busy |
| Debounce.Run | src/utils/useDebounce.ts:7-42 | one result per event |
| Debounce.LatestCall | src/utils/useDebounce.ts:33-37 | the latest call is the given one or a call among the events |
| Debounce.DebounceStepKeeps | src/utils/useDebounce.ts:7-17 | one event of `debounce` keeps the invariant, and a run only happens on a call that comes at least `bounceRate` after the previous one |
| Debounce.DebounceNeedsQuiet | src/utils/useDebounce.ts:3-18 | `debounce` runs a callback only on the first call, or on a call at least `bounceRate` after the call before it |
| Debounce.DebounceCall | src/utils/useDebounce.ts:13-16 | a call runs its callback exactly when not busy, and leaves `busy` set |
| Debounce.DelayedStepKeeps | src/utils/useDebounce.ts:32-42 | one event of `delayDebounce` keeps the pending timer tied to the latest call |
| Debounce.DelayedRunsLatest | src/utils/useDebounce.ts:28-43 | `delayDebounce` runs no callback during a call; when its timer fires, it runs the callback of the latest call |
| Debounce.DelayedIgnoresBusy | src/utils/useDebounce.ts:34-41 | the `busy` flag of `delayDebounce` changes neither what runs nor the pending timer |
| Debounce.Debouncer.constructor | src/utils/useDebounce.ts:3-30 | not busy, no pending timer |
| Debounce.Debouncer.Call | src/utils/useDebounce.ts:7-42 | the new closure state and the callback that ran are those of one call step |
| Debounce.Debouncer.Tick | src/utils/useDebounce.ts:9-37 | a due timer clears `busy`, and in `delayDebounce` runs the callback it carries |
| Slots.Assign | src/components/AppScreen/utils/useManageScrollViewOnScroll.ts:49 | writing into an array: a negative index changes no element; otherwise the slot holds the value, the array grows to include it, and every other element is kept or is a hole |
| Slots.Occupied | src/components/AppScreen/utils/useManageScrollViewOnScroll.ts:33-35 | the occupied indices, each once, in increasing order |
| Slots.AssignKeepsOthers | src/components/AppScreen/utils/useManageRefreshing.ts:84 | emptying one slot leaves every other occupied slot occupied |
| Slots.EmptiedSkipped | src/components/AppScreen/utils/useManageScrollViewOnScroll.ts:33-49 | an emptied slot is skipped by the loop |
| ScrollManager.Apply | src/components/AppScreen/utils/useManageScrollViewOnScroll.ts:41-49 | registering and unregistering never shrink the array |
| ScrollManager.ReturnedIncrease | src/components/AppScreen/utils/useManageScrollViewOnScroll.ts:39-52 | indices returned by registration strictly increase, so no index is handed out twice, even after unregistering |
| ScrollManager.EmptySlotStaysEmpty | src/components/AppScreen/utils/useManageScrollViewOnScroll.ts:39-52 | once a slot is empty, it stays empty and its callback is never invoked again |
| ScrollManager.ScrollManager.constructor | src/components/AppScreen/utils/useManageScrollViewOnScroll.ts:28-30 | no callbacks |
| ScrollManager.ScrollManager.RegisterOnScrollCallback | src/components/AppScreen/utils/useManageScrollViewOnScroll.ts:39-45 | the callback is appended and its index returned |
| ScrollManager.ScrollManager.UnregisterOnScrollCallback | src/components/AppScreen/utils/useManageScrollViewOnScroll.ts:47-52 | `undefined` is written at the index |
| ScrollManager.ScrollManager.HandleScroll | src/components/AppScreen/utils/useManageScrollViewOnScroll.ts:31-37 | the event goes to every occupied slot exactly once, in index order |
| RefreshingManager.MarkAll | src/components/AppScreen/utils/useManageRefreshing.ts:53-58 | every occupied slot is marked refreshing and holes stay holes |
| RefreshingManager.CallbacksOccupied | src/components/AppScreen/utils/useManageRefreshing.ts:53-58 | the callbacks invoked are those of the occupied slots, one each, in index order |
| RefreshingManager.Finish | src/components/AppScreen/utils/useManageRefreshing.ts:90-92 | only an occupied slot at the index stops refreshing; every other slot is unchanged |
| RefreshingManager.RefreshMarksOccupied | src/components/AppScreen/utils/useManageRefreshing.ts:48-60 | after a refresh, some slot is refreshing exactly when some slot is occupied |
| RefreshingManager.FinishingEveryoneStops | src/components/AppScreen/utils/useManageRefreshing.ts:90-95 | once every refreshing slot has reported back, the screen is no longer refreshing |
| RefreshingManager.RefreshingManager.constructor | src/components/AppScreen/utils/useManageRefreshing.ts:41-46 | not refreshing, not enabled, no callbacks |
| RefreshingManager.RefreshingManager.HandleRefresh | src/components/AppScreen/utils/useManageRefreshing.ts:48-60 | `onRefresh` is invoked first, then the callback of every occupied slot in order; every occupied slot is marked refreshing; the screen is refreshing if the array is not empty |
| RefreshingManager.RefreshingManager.RegisterRefreshCallback | src/components/AppScreen/utils/useManageRefreshing.ts:62-80 | refreshing is enabled first; with no index the callback is appended and its index returned; an index out of bounds throws and changes no slot; otherwise the slot is replaced and keeps its refreshing flag |
| RefreshingManager.RefreshingManager.UnregisterRefreshCallback | src/components/AppScreen/utils/useManageRefreshing.ts:82-88 | the slot is emptied, and refreshing stays enabled while the array has any slot |
| RefreshingManager.RefreshingManager.FinishRefreshing | src/components/AppScreen/utils/useManageRefreshing.ts:90-95 | the slot stops refreshing, and the screen is refreshing exactly when some slot still is |
| NavBarStack.CreateStackEntry | src/components/AppSystemNavigationBar/utils/stackManager.ts:16-21 | a missing bar style becomes `light` and a missing colour `#00000055`; given fields are kept |
| NavBarStack.IndexOf | src/components/AppSystemNavigationBar/utils/stackManager.ts:31-43 | -1 exactly when the entry is not on the stack; otherwise the first position holding it |
| NavBarStack.PushThenPop | src/components/AppSystemNavigationBar/utils/stackManager.ts:23-36 | popping the entry just pushed gives the previous stack back |
| NavBarStack.PopRemovesEntry | src/components/AppSystemNavigationBar/utils/stackManager.ts:30-36 | with distinct entries, popping removes exactly that entry and keeps the others in order; an unknown entry leaves the stack as it was |
| NavBarStack.ReplaceInPlace | src/components/AppSystemNavigationBar/utils/stackManager.ts:38-49 | replacing keeps the length and every other entry, and puts the new entry at the old one's position |
| NavBarStack.StackManager.constructor | src/components/AppSystemNavigationBar/utils/stackManager.ts:11-13 | empty stack, no pending update, no merged props |
| NavBarStack.StackManager.PushStackEntry | src/components/AppSystemNavigationBar/utils/stackManager.ts:23-28 | a new entry with the defaulted props goes on top, and an update is scheduled; entries stay distinct |
| NavBarStack.StackManager.PopStackEntry | src/components/AppSystemNavigationBar/utils/stackManager.ts:30-36 | the first occurrence of the entry is removed, if present, and an update is scheduled; entries stay distinct |
| NavBarStack.StackManager.ReplaceStackEntry | src/components/AppSystemNavigationBar/utils/stackManager.ts:38-49 | a new entry is returned even when the old one is absent; if present, it takes the old one's place; an update is scheduled |
| NavBarStack.StackManager.FlushUpdate | src/components/AppSystemNavigationBar/utils/stackManager.ts:51-77 | the merged props become the top entry's props, or none for an empty stack; the native bar is updated exactly when the new merged props exist and differ from the old |
| Scrubber.DigitRun | src/utils/scrubber.ts:117 | the longest prefix of decimal digits |
| Scrubber.IdMatch | src/utils/scrubber.ts:117 | a match of `/\d+` is followed by `/` or by the end |
| Scrubber.LastStop | src/utils/scrubber.ts:118 | the backtracking of `.+` stops only before `/` or at the end |
| Scrubber.TcnMatch | src/utils/scrubber.ts:118 | a match of `/TCN.+` starts with `/` and is at least five characters long |
| Scrubber.LineRun | src/utils/scrubber.ts:118 | `.` runs to the end of a string without line terminators |
| Scrubber.NumericSegment | src/utils/scrubber.ts:117 | a numeric segment followed by `/` or by the end becomes `/:id` |
| Scrubber.TcnMatchNoTerminator | src/utils/scrubber.ts:118 | without line terminators, `/TCN` followed by at least one character matches the rest of the string |
| Scrubber.TcnCollapses | src/utils/scrubber.ts:118 | such a path becomes just `/:tcn_id` |
| Scrubber.PathAvoids | src/utils/scrubber.ts:116-118 | the path passes add neither `?` nor a line terminator |
| Scrubber.IdFreeUnchanged | src/utils/scrubber.ts:117 | a string with no numeric segment is left unchanged by the numeric pass |
| Scrubber.NoDigitsIdFree | src/utils/scrubber.ts:117 | a string without digits has no numeric segment |
| Scrubber.IdsLeaveNoMatch | src/utils/scrubber.ts:117 | the output of the numeric pass has no numeric segment left |
| Scrubber.TcnFreeUnchanged | src/utils/scrubber.ts:118 | a string with no TCN segment is left unchanged by the TCN pass |
| Scrubber.NoCapitalTFree | src/utils/scrubber.ts:118 | a string without a capital `T` has no TCN segment |
| Scrubber.TcnLeavesNoMatch | src/utils/scrubber.ts:118 | without line terminators, the TCN pass leaves no TCN segment |
| Scrubber.TcnKeepsIdFree | src/utils/scrubber.ts:116-118 | the TCN pass creates no numeric segment |
| Scrubber.ScrubPathIdempotent | src/utils/scrubber.ts:116-118 | scrubbing a path twice gives the same result as scrubbing it once |
| Scrubber.MapScrubParam | src/utils/scrubber.ts:124-127 | each parameter is scrubbed, one output per input |
| Scrubber.ParamValueDropped | src/utils/scrubber.ts:125-126 | the value after the first `=` never reaches the output: `key=value` becomes `key=:key` |
| Scrubber.ParamWithoutValue | src/utils/scrubber.ts:125-126 | a parameter without `=` is its own key |
| Scrubber.ScrubParamIdempotent | src/utils/scrubber.ts:125-126 | scrubbing a parameter twice gives the same result as scrubbing it once |
| Scrubber.QueryParams | src/utils/scrubber.ts:122-128 | the scrubbed query splits back into one scrubbed parameter per input parameter, in order |
| Scrubber.QueryNonEmpty | src/utils/scrubber.ts:122-128 | even an empty query scrubs to at least `=:` |
| Scrubber.QueryIdempotent | src/utils/scrubber.ts:122-128 | scrubbing a query twice gives the same result as scrubbing it once |
| Scrubber.UrlWithoutQuery | src/utils/scrubber.ts:112-133 | a URL without `?` is scrubbed as a path and gains no `?` |
| Scrubber.UrlEmptyQuery | src/utils/scrubber.ts:113-133 | an empty query drops the `?` altogether |
| Scrubber.UrlDropsAfterSecondMark | src/utils/scrubber.ts:113 | only the text up to a second `?` is kept as the query |
| Scrubber.UrlWithQuery | src/utils/scrubber.ts:112-131 | a URL with a query keeps the shape `scrubbed path?scrubbed query` |
| Scrubber.ScrubApiUrlIdempotent | src/utils/scrubber.ts:112-134 | scrubbing a URL twice gives the same result as scrubbing it once |
| Scrubber.SetFieldGet | src/utils/scrubber.ts:49-61 | after the assignment the key holds the new value and every other key its old one |
| Scrubber.ScrubText | src/utils/scrubber.ts:30-58 | a missing or empty string is kept; otherwise it is replaced by its scrubbed text |
| Scrubber.ScrubRequest | src/utils/scrubber.ts:10-16 | headers, cookies, data and query string are removed, and the other fields are kept |
| Scrubber.ScrubExceptionInfo | src/utils/scrubber.ts:19-36 | exception values stay absent or keep their number |
| Scrubber.MapScrubException | src/utils/scrubber.ts:20-35 | each exception value is scrubbed, in place |
| Scrubber.ScrubException | src/utils/scrubber.ts:20-35 | an exception value keeps its other fields and its mechanism, present or absent; the mechanism keeps its other fields and whether it has data |
| Scrubber.MapScrubSpan | src/utils/scrubber.ts:55-65 | each span is scrubbed, in place |
| Scrubber.ScrubSpan | src/utils/scrubber.ts:55-65 | a span keeps its other fields, and its data stays present or absent |
| Scrubber.NonConsole | src/utils/scrubber.ts:39-42 | filtering never adds breadcrumbs |
| Scrubber.MapScrubBreadcrumb | src/utils/scrubber.ts:44-51 | each breadcrumb is scrubbed, in place |
| Scrubber.ScrubBreadcrumb | src/utils/scrubber.ts:44-51 | a breadcrumb keeps its category and its other fields, and its data stays present or absent |
| Scrubber.SentryEvent.constructor | src/utils/scrubber.ts:4 | holds the given parts |
| Scrubber.SentryEvent.Scrub | src/utils/scrubber.ts:4-68 | the user loses email and IP address; `extra` is removed; the request, exception, breadcrumbs and spans are replaced by their scrubbed forms, and absent parts stay absent |
| Scrubber.BreadcrumbsFiltered | src/utils/scrubber.ts:39-52 | console breadcrumbs are dropped, and the others are scrubbed one by one in their original order |
| Scrubber.NoConsoleLeft | src/utils/scrubber.ts:40-42 | no console breadcrumb survives |
| Scrubber.NonConsoleKept | src/utils/scrubber.ts:44-51 | every breadcrumb that is not a console message is kept, in scrubbed form |
| Scrubber.DataUrlScrubbed | src/utils/scrubber.ts:48-62 | a string `url` in the data is replaced by its scrubbed form; the other entries and the key order are unchanged |
| Scrubber.DataUrlNotString | src/utils/scrubber.ts:48-60 | a missing `url`, or one that is not a string, leaves the data alone |
| Scrubber.EntriesScrubbed | src/utils/scrubber.ts:21-28 | only the string entries of the mechanism data change, each to its scrubbed text; the keys and their order are kept |
| AppList.SpliceStart | src/components/AppList/utils.ts:96-100 | where `splice` starts: a negative start counts from the end, and both ends are clamped to the array |
| AppList.SpliceCount | src/components/AppList/utils.ts:96-100 | how many items `splice` removes: none for a negative count, and never past the end |
| AppList.MergeFreshReplaces | src/components/AppList/utils.ts:91-106 | without paging, without previous data, or in `fresh` mode, the page becomes the whole data |
| AppList.MergeKeepsPrefix | src/components/AppList/utils.ts:94-101 | in `concat` mode the items before the page's start are kept, and the page follows them |
| AppList.MergeShortPageDropsTail | src/components/AppList/utils.ts:96-100 | a page shorter than `pageSize` is the last one: everything after its start is replaced by it |
| AppList.MergeFullPageReplaces | src/components/AppList/utils.ts:96-100 | a full page replaces exactly `pageSize` items, fewer at the end |
| AppList.MergeAppendsNextPage | src/components/AppList/utils.ts:94-101 | when the data holds exactly the earlier pages, the page is appended |
| AppList.MergeRefetchIdempotent | src/components/AppList/utils.ts:91-107 | merging the same page twice gives the same data as merging it once |
| AppList.PageEnd | src/components/AppList/AppList.tsx:186-191 | without paging the list has ended; with a known total it ends once the next page would start at or past the total; otherwise it ends when the last page came back empty |
| AppList.PagesStayBelowTotal | src/components/AppList/utils.ts:109-114 | with a known total, end-of-list events never request a page that starts at or past the total, and each event moves at most one page on |
| AppList.Pager.constructor | src/components/AppList/utils.ts:58-67 | no data, page 0, `fresh` mode |
| AppList.Pager.ReceivePage | src/components/AppList/utils.ts:91-107 | an arriving page is merged into the data; no page changes nothing; page and mode stay |
| AppList.Pager.HandleEndReached | src/components/AppList/utils.ts:109-127 | the next page is requested exactly when paging, not at the end, with no error, and not fetching or uninitialized; the page then goes up by one and the mode becomes `concat`; `onEndReached` is called in every case |
| AppList.Filter | src/components/AppList/utils.ts:83 | the result is no longer than the input, and every item in it passes |
| AppList.FilterKeeps | src/components/AppList/utils.ts:83 | filtering keeps the order, and keeps every item that passes |
| AppList.CookedDataMeaning | src/components/AppList/utils.ts:82-89 | no data gives no data; without functions the data is shown as is; a filter alone keeps exactly the passing items, in order; a transform gets the filtered data |
| AppList.Put | src/components/AppList/utils.ts:52 | after writing a key it holds the new value, and every other key keeps its value |
| AppList.MergeGet | src/components/AppList/utils.ts:52 | in `{...base, ...over}` a key of `over` has its value there, and any other key has its value in `base` |
| AppList.FullArgsMeaning | src/components/AppList/utils.ts:48-54 | a symbol passes through; an object, `null` or `undefined` gets the page arguments merged in, and they win; any other truthy value passes through and loses them; with neither truthy arguments nor page arguments the result is `undefined` |
| AppList.FirstSevenDigits | src/components/AppList/utils.ts:174 | the leftmost position where seven digits start, or none if there is none |
| AppList.FormatPostalCode | src/components/AppList/utils.ts:173-175 | a code without seven consecutive digits is unchanged; otherwise it grows by the five characters of the separator |
| AppList.PostalCodeSeparator | src/components/AppList/utils.ts:173-175 | the separator goes after the first three of the leftmost seven digits; taking it out gives the input back |
| EqualHeightList.Row | src/components/EqualHeightItemsFlashList/EqualHeightItemsFlashList.tsx:40-43 | a row is `n` slots long, padded when the data runs out |
| EqualHeightList.GroupedData | src/components/EqualHeightItemsFlashList/EqualHeightItemsFlashList.tsx:33-49 | with an unsupported prop, fewer than two columns or no data, the data is passed through; otherwise the loop produces the rows of `numColumns` slots |
| EqualHeightList.RowsFull | src/components/EqualHeightItemsFlashList/EqualHeightItemsFlashList.tsx:40-45 | every row has exactly `numColumns` slots |
| EqualHeightList.RowCount | src/components/EqualHeightItemsFlashList/EqualHeightItemsFlashList.tsx:39 | there are `ceil(length / numColumns)` rows |
| EqualHeightList.SlotIndex | src/components/EqualHeightItemsFlashList/EqualHeightItemsFlashList.tsx:39-45 | slot `k` of row `g` holds the item at index `g * numColumns + k`, or padding past the end |
| EqualHeightList.PaddingOnlyLast | src/components/EqualHeightItemsFlashList/EqualHeightItemsFlashList.tsx:41-43 | only the last row holds padding |
| EqualHeightList.UngroupRoundTrip | src/components/EqualHeightItemsFlashList/EqualHeightItemsFlashList.tsx:38-48 | flattening the rows and dropping the padding gives the data back, in order |
| EqualHeightList.RenderCalls | src/components/EqualHeightItemsFlashList/EqualHeightItemsFlashList.tsx:60-71 | one entry per slot |
| EqualHeightList.RenderSeesOriginalIndex | src/components/EqualHeightItemsFlashList/EqualHeightItemsFlashList.tsx:56-76 | `renderItem` is called for a slot exactly when it holds an item, with that item and its index in the data |
| EqualHeightList.SlotKeys | src/components/EqualHeightItemsFlashList/EqualHeightItemsFlashList.tsx:85-90 | one key per slot |
| EqualHeightList.SlotViewKeys | src/components/EqualHeightItemsFlashList/EqualHeightItemsFlashList.tsx:61-66 | with a `keyExtractor`, one `key` prop per slot of the row, padding included |
| EqualHeightList.SlotViewKeyIndex | src/components/EqualHeightItemsFlashList/EqualHeightItemsFlashList.tsx:59-66 | every row has `numColumns` slot keys; an item slot is keyed by `keyExtractor` on the item and its index in the data, the same key the row key uses for it, and a padding slot by `keyExtractor` on the padding marker and an index past the data |
| EqualHeightList.GroupKeySplits | src/components/EqualHeightItemsFlashList/EqualHeightItemsFlashList.tsx:84-92 | when item keys contain no `-`, the row key splits back into the slot keys |
| RefreshControl.CalledFromExactly | src/components/AppRefreshControl/utils/useRefreshControl.tsx:23-27 | no more calls than entries; with nothing skipped the whole list is called in order, with everything skipped nothing is |
| RefreshControl.CalledFromMembers | src/components/AppRefreshControl/utils/useRefreshControl.tsx:23-27 | a refetch is called exactly when it stands at a position whose skip entry is falsy |
| RefreshControl.ScalarSkipOnlyFirst | src/components/AppRefreshControl/utils/useRefreshControl.tsx:13-27 | a single `skip` flag only concerns the first refetch of a list; with no `skip` every refetch is called |
| RefreshControl.RefreshControl.constructor | src/components/AppRefreshControl/utils/useRefreshControl.tsx:11 | not refreshing |
| RefreshControl.RefreshControl.Render | src/components/AppRefreshControl/utils/useRefreshControl.tsx:12-20 | the reported flag is on only while refreshing and something fetches; the flag is cleared once nothing fetches |
| RefreshControl.RefreshControl.OnRefresh | src/components/AppRefreshControl/utils/useRefreshControl.tsx:21-31 | the flag is set, and exactly the refetches whose skip entry is falsy are called, in order |
| VersionRules.ValidateVersionObject | scripts/version.js:334-346 | true exactly when both `uat` and `prod` exist and are truthy, with string versions and number build numbers |
| VersionRules.EncodeRoundTrip | scripts/version.js:334-346 | a `version` object built from two flavours passes the structure check and reads back as those flavours |
| VersionRules.CompareEncoded | scripts/version.js:358-366 | on flavour objects, the key-order-insensitive comparison is equality of all four fields |
| VersionRules.Trim | scripts/version.js:103 | trimming never lengthens a string, and leaves no white space at either end |
| VersionRules.FirstAnswer | scripts/version.js:102-112 | the prompt is still waiting exactly when every answer so far was empty or `?`; otherwise the result is the first other answer, trimmed |
| VersionRules.LaterItemsWin | scripts/version.js:114-123 | each platform ends with the version of the last item that names it (a bare version names both), or keeps its current one |
| VersionRules.ApplyFlags | scripts/version.js:128-137 | a platform flag wins over `--version`, which wins over the current version; empty flags count as absent |
| VersionRules.VersionPlan.constructor | scripts/version.js:88-92 | the new versions start as the flavour's current ones |
| VersionRules.VersionPlan.ApplyAnswer | scripts/version.js:114-123 | the loop over the answer's comma-separated items gives the versions of applying them in order; build numbers stay |
| VersionRules.VersionPlan.ApplyVersionFlags | scripts/version.js:128-137 | the version flags are applied in order; build numbers stay |
| VersionRules.VersionPlan.BumpChangedBuilds | scripts/version.js:140-145 | a build number goes up by one exactly when its platform's version string changed |
| VersionRules.VersionPlan.BumpBuildNumber | scripts/version.js:146-153 | the target's build number goes up by one (both when no target is given); versions stay |
| VersionRules.Chosen | scripts/version.js:87-154 | a bump keeps both version strings; build numbers go up by 0 or 1 |
| VersionRules.BuildFollowsVersion | scripts/version.js:140-145 | when versions are set, a build number goes up by exactly one if and only if its platform's version changed, and stays otherwise |
| VersionRules.ChooseVersions | scripts/version.js:87-154 | the script's choice of versions, through its variables, is the one specified |
| VersionRules.Check | scripts/version.js:187-211 | no failure exactly when both versions are valid semver, the Android build number is a whole number in 1..2100000000, and the iOS build number a positive whole number; otherwise the first failing check in the script's order |
| VersionRules.MarkMeaning | scripts/version.js:224-276 | an Android downgrade alone marks `android`, an iOS downgrade alone `ios`, both leave the empty mark, and none leaves no mark |
| VersionRules.AndroidDowngrades | scripts/version.js:225-251 | the questions asked before the iOS versions are compared are the two Android downgrade questions |
| VersionRules.ConfirmDowngrades | scripts/version.js:225-276 | the run goes on exactly when every downgrade question asked was answered `y`, and it leaves the mark of the downgrades |
| VersionRules.TagParts | scripts/version.js:278-287 | the tag is `v`, the quoted version and build, then `-uat` exactly for UAT, then the platform in parentheses only for an `android` or `ios` mark; the Android version is quoted only for the `android` mark |
| VersionRules.SyncFlavor | scripts/version.js:168-176 | both flavours changed is an error; only `uat` changed gives `uat`; otherwise `prod` |
| VersionRules.Conclude | scripts/version.js:187-287 | a failed check stops the run with that failure; unchanged versions end it without change; an invalid current Android version throws before any question, and an invalid current iOS version throws once the Android questions are confirmed; the run is declined exactly when a question asked is not answered `y`; it writes exactly when the checks pass, the versions changed, both current versions are valid and every question asked is confirmed, and the write carries the chosen versions, the downgrade mark, and the tag and message built from them |
| VersionRules.Release | scripts/version.js:16-287 | an invalid structure fails; only the version prompt can leave the run waiting; a write has passed the checks, has valid current versions, has every downgrade question confirmed, and carries the mark, tag and message of its versions; in flavour mode those are the chosen versions of that flavour, and in sync mode the changed flavour of app.json against the committed one |
| Api.ResolveUrl | src/services/api.ts:46-51 | an absolute URL is kept; any other is put after the base URL, behind exactly one added `/` unless it already starts with one |
| Api.BaseKeepsTrailingSlash | src/services/api.ts:47-51 | the base URL is not trimmed: a base ending in `/` and a path starting with `/` give `//` at the join |
| Api.AdjustArgs | src/services/api.ts:43-52 | the call throws exactly when there is no base URL; otherwise only the URL is replaced, by the resolved one, and a string stays a string |
| Api.PreparedMeaning | src/services/api.ts:17-34 | `content-type` and `x-locale` get their defaults only when absent; the `doRefresh` marker is removed; the bearer token is set exactly when there is no marker and a token; every other header is left as it was |
| Api.Headers.constructor | src/services/api.ts:17 | holds the given headers |
| Api.Headers.Set | src/services/api.ts:19-31 | the header takes the value |
| Api.Headers.Delete | src/services/api.ts:27 | the header is removed |
| Api.PrepareHeaders | src/services/api.ts:17-34 | the headers are changed in place to the prepared ones |
| Api.ErrorMessage | src/services/api.ts:61 | the `errorMessage` of an object's data, if present and not `null` |
| Api.Classify | src/services/api.ts:57-64 | a result is an auth failure exactly when its status is 401, or 500 with a string `errorMessage` containing `token` in any case; a 500 whose `errorMessage` is present but not a string makes the test throw; a success is never an auth failure |
| Api.RefreshCarriesNoBearer | src/services/api.ts:25-85 | the refresh request goes out without the marker and without an `Authorization` header, whatever the session holds |
| Api.TokenText | src/services/api.ts:90 | a token field is kept exactly when it is a string |
| Api.RefreshedSession | src/services/api.ts:86-91 | the refresh gives a session exactly when the response data has a truthy `access_token`; the session holds it and `fresh_token` |
| Api.ApiClient.constructor | src/services/api.ts:37 | logged-out session, lock free, nothing sent or dispatched |
| Api.ApiClient.Send | src/services/api.ts:15-35 | one request is handed to the transport, with its headers prepared from the current session; nothing else changes |
| Api.ApiClient.Dispatch | src/services/api.ts:89-100 | the action is logged and applied to the session |
| Api.ApiClient.AfterRefresh | src/services/api.ts:86-95 | a new access token replaces the session and re-sends the request with it; otherwise the user is logged out and nothing is sent |
| Api.ApiClient.Refresh | src/services/api.ts:74-95 | one refresh request, then a re-send with the new session, or a logout; a throwing transport changes no session |
| Api.ApiClient.Reauthenticate | src/services/api.ts:72-98 | the lock is taken and always released, even when the transport throws, around the refresh |
| Api.ApiClient.HandleAuthFailure | src/services/api.ts:65-102 | with the lock held elsewhere: wait, then re-send once; with the lock free and a refresh token: refresh under the lock; with neither: log out exactly when there is an access token, and return the failure |
| Api.ApiClient.Call | src/services/api.ts:42-105 | without a base URL the call throws and nothing happens; otherwise the request goes out once, and an ordinary result is returned untouched; an auth failure leads to at most one refresh and at most one re-send of the same args; the lock is released whenever this call took it |

## Left out

- Concurrent requests in `src/services/api.ts`: only one call is modelled. What other requests do at its `await` points is given by the `Others` argument. That covers the session after a wait, and whether another request took the lock while this call's request was in flight. The cross-request single-flight property of `async-mutex` is not stated.
- The transport (`fetchBaseQuery` over HTTP) is a function parameter. A transport that throws is modelled as a raised outcome.
- zod's `string().url()` check is a predicate parameter.
- The `createApi` endpoint and tag declarations, `externalApi` and `src/services/auth.ts` have no logic and are not modelled.
- Api: header names are kept in lower case, as Fetch `Headers` compares them case-insensitively. Lower-casing covers ASCII letters only.
- Api.RefreshedSession: an `access_token` or `fresh_token` that is truthy but not a string is stored as absent. The source would store the value itself.
- I18n.LocaleCode: the lookup is on a plain object literal, so names inherited from `Object.prototype` (`constructor`, `toString`, `__proto__` and the like) return those members in the source. The model returns `en` for them, and its result is one of the three codes for every input.
- PersonalInfo.UpdatePersonalInfo: `Object.assign` also copies a key that is present with the value `undefined`, and keys outside the four fields. A patch field is either a string or absent, so neither case is modelled.
- The module-level `i18n.use(...).init(...)` call is library set-up and is not modelled.
- `src/store/store.ts` (the root reducer and its logout reset) and the storage adapters are wiring and device I/O, and are not modelled.
- The `settings`, `appMeta` and `apiUrl` slices are single-field setters and are not modelled.
- Redux, React state setters and refs are modelled as immediate assignments. Re-renders and effect scheduling are not modelled.
- `isSafe` (`src/utils/safety.ts`) is not part of this model and is a parameter of `ParamsCleaner`.
- `encodeURIComponent` and `JSON.stringify` are parameters of `ParamsCleaner`.
- `scrubString` relies on lookbehind regular expressions and `Number` parsing. It is a parameter of the event scrubber.
- Scrubber.ScrubApiUrlIdempotent: idempotence is proved only for URLs without line terminators. The regular expressions' `.` stops at those, so a URL containing them is not covered.
- JavaScript truthiness does not model `NaN`.
- `Text.Lower` lower-cases ASCII letters only. The full Unicode case mapping of `toLowerCase` is not modelled.
- `trim` in `scripts/version.js` removes the ASCII white space, the line terminators, no-break space and the byte-order mark. The other Unicode space separators are not modelled.
- `compareObjects` in `scripts/version.js` sorts the entries with `localeCompare` and compares their `JSON.stringify` texts. It is modelled by what that computes: same number of fields, and each field of one object present with the same value in the other.
- The `react-native-version`, git, `fs` and `readline-sync` calls of `scripts/version.js` are not modelled. Prompt answers are a list. The outcome says what would be written and tagged.
- The command-line parsing of `scripts/version.js` and its git-clean status check are not modelled. This includes the missing-flavour error and the conflicting-option checks.
- In `scripts/version.js`, build numbers are exact numbers. Their text for values of 1e21 and above, which JavaScript writes in exponent notation, is not modelled. Neither is floating-point rounding above 2^53.
- KeyGen.DefaultPrimitiveToKey: numbers are integers. Fractions, `NaN`, infinities, symbols and big integers are not modelled.
- Timers: `setTimeout`, `setImmediate` and `requestAnimationFrame` are events or method calls. Cancelling a timer is modelled by the `timeout` field.
- The `expo-navigation-bar` native calls made by the props stack are not modelled. The flush returns the merged props it would apply.
- Callbacks that re-enter a registry while it is being iterated are not modelled. The registries' slots hold callback identities, so aliasing between callbacks is not modelled.
- The `useFullArgs` reset effect and its `console.warn` are not modelled. Only the argument merge is modelled.
- The viewable-items debounce and the `onFullRawDataUpdate` callback of the list are not modelled.
- `useMergedRefreshControl` is not modelled.
- Of `renderGroup`, the index mapping and the `key` props derived from a given `keyExtractor` are modelled. The `keyGen.getKey` keys it uses when there is no `keyExtractor`, the row view's `key` and the JSX itself are not.
- The Sentry records hold only the fields the scrubber reads or deletes. Every other field is one opaque `others` list per record, so the model shows those fields are kept but not what they contain.
- Screens, theming, animation, gesture and layout code is rendering, mostly with floating-point geometry, and is not modelled.
- The native bridges, Babel plugins, build configuration and the other scripts are library- or filesystem-driven, and are not modelled.

## Findings

| source | as written | input that shows it | evidently intended | confidence | as-written member | corrected member |
|---|---|---|---|---|---|---|
| src/utils/addColorAlpha.ts:16-25 | the `rgb`/`hsl` branches split the whole colour on `,` and then remove the parentheses, so the function name stays in the first component | `addColorAlpha("rgb(1,2,3)", 0.5)` gives `rgba(rgb1, 2, 3, 0.5)` | `rgba(1, 2, 3, 0.5)`: the arguments inside the parentheses, with the alpha added | not executed | ColorAlpha.RgbKeepsFunctionName | ColorAlpha.FixedFunctionalColour |
