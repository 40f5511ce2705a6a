# Verified model of the HRM client's list and cache logic

This project models the parts of the React Native HRM client that hold real algorithms or state:
the chat timeline and message store, the shared user-profile cache, the meal-order book with its
modal, the conversation list, the interpreter panel's unread counter, the daily report and the user
selection of a new chat. React, moment, axios and the socket appear only as the events they cause.

Each stateful screen is modelled twice over the same state: a `Step` function over a value (`State`,
`World`, `Book`, `Panel`), about which all runs are reasoned, and a class with the source's fields
whose methods are proved to do exactly one such step. A run is any finite sequence of events; a
disabled event changes nothing, so lemmas about runs speak about every interleaving. Loops of the
source (`injectDateLabels`, the conversation `reduce`) are methods with invariants.

| file | models |
|---|---|
| `Sequences.dfy` | array operations shared by the modules |
| `Messages.dfy` | chat messages, the stable sort (section 23.1.3.30 of ECMA-262), the adjacent-id filter |
| `DateLabels.dfy` | `injectDateLabels` and the list keys |
| `Timeline.dfy` | the timeline memo: unique keys, incremental maintenance, changes in place |
| `SenderRuns.dfy` | the `isLastFromSender` flag |
| `ChatScreen.dfy` | the message store: queued updates, renders, the trimming effect |
| `TranslatedView.dfy` | when a translation that moves messages commutes with the timeline |
| `TrimmedView.dfy` | what a trim does to the timeline |
| `UserProfiles.dfy` | `useUserProfile` with its module-level cache |
| `ShownProfiles.dfy` | which request's answer a hook shows, and when that is the cached one |
| `OrderWindow.dfy` | the 30-day ordering window |
| `Orders.dfy` | the order screen and the order modal |
| `Conversations.dfy` | conversation reduction, search, deletion |
| `UnreadCounter.dfy` | the unread counter |
| `DailyReport.dfy` | `handleCal` and the error rows |
| `UserSelection.dfy` | the selection of users for a chat |

## Modelling choices

- A local day is the value of an arbitrary monotone function of the timestamp (`Calendar.dayOf`); the
  `YYYYMMDD` text is an arbitrary injective function of the day. Dates of orders are day numbers with
  day 0 a Sunday.
- The sort is characterised by what the standard promises (`StableSortOf`), and `StableSortIff` shows
  that this determines the result, so no sorting algorithm is assumed.
- A handler that closes over state carries the captured value: a delete request carries the lists it
  was pressed on, a translation the message copy it started from.
- React's batching is explicit in the message store: updates are queued, a render applies the queue,
  effects of a commit run before the next render. In the profile cache every continuation is a step
  of its own; only the cache write, attached first, happens together with the response.
- `Option` stands for `null` and for missing values, `None` user ids for falsy ones; order ids are
  numbers, truthy when not zero. A profile answer is a profile, `Null` for a failure, or `Missing` for
  a success without data, which the cache holds as `undefined` and so takes for nothing held.

## Where the code does less than it seems to

Each is proved with the exact condition under which the code does meet the property, besides a run or
input that fails.

- The counter in `injectDateLabels`, whose comment announces unique label keys, is reset whenever it
  is zero and never counts. Label keys are unique only because the caller sorts (`KeysDistinctIff`).
- The adjacent filter removes all duplicates of an id exactly when sorting does not put another id
  between them (`KeysDistinctIffNoSplit`).
- A translation gives all held copies of its message the time of one. With copies of several times a
  row can vanish (`TwiceHeldTranslation`) or one can appear twice (`LateCopyTranslation`); where no id was
  split, the view is kept exactly when no copy changes sides with another message and the row stays on
  its day (`TranslateCommutesIff`).
- A translation that was started before an unsend arrives takes the mark back
  (`MarkSurvivesTranslationIff`).
- A list of over 100 messages can settle untrimmed (`ReloadBeatsTrim`): exactly when the last render
  restored the very length the effect had seen last (`SettledLongIff`).
- The trim keeps what arrived last, not what is newest: with no id on both sides, the screen keeps its
  newest rows exactly when no dropped message is newer than a kept one (`TrimShowsNewestIff`,
  `NewestTrimmed`).
- A refresh while a request for the same user is unanswered can leave an old profile in the cache
  (`RefreshSafeIff`, `OldAnswerGoesStale`).
- After a refresh an idle hook need not show the cached profile: the refresh's answer is shown even
  after the hook has changed user (`RefreshShowsFormerUser`), and other hooks of the user keep the old
  one (`SiblingStaysBehind`). It does exactly when it was last served from the request answered last
  (`IdleHookAgreesIff`, `IdleHookAlwaysAgreesIff`).
- An answer without data is asked for again by the next effect (`MissingAsksAgain`): a user gets one
  request besides its refreshes exactly when no effect finds such an answer (`RequestsExactly`,
  `OneBesidesRefreshesIff`).
- Two presses on one day before the first answer give two orders on that day (`TwoPressesOneDay`):
  placed orders are alone on their days exactly when the days pressed were different and free
  (`PlacedOnePerDayIff`, `AllAnsweredOnePerDayIff`).
- A placement during a delete is lost from the list but stays shown (`DeleteLosesPlacement`): nothing
  unordered is shown exactly when the list the delete captured holds the other orders selected
  (`DeletedBackedIff`). A placement on a full list is shown but not held (`PlacedBackedIff`).
- The unread count is right exactly when no counting update is read after the ref was set
  (`CountIsUnreadIff`).
- The good quantity sent subtracts the losses twice (`GoodQuantityIsNetIff`).
- Row ids can repeat within one millisecond (`SameInstantCollides`): they never do exactly when every
  added row finds the id of its time and the list's length unused (`AddKeepsIdsIff`,
  `IdsAlwaysDistinctIff`).

## Model

| member | source | states |
|---|---|---|
| Messages.StableSortIff | src/screens/ChatScreen.js:378-379 | A list is a stable sort of the messages by creation time - ordered, and per instant the same messages in the same order - exactly when it is the modelled one |
| Messages.SortOrder | src/screens/ChatScreen.js:378-379 | The sorted list is the store read through a permutation of its indices in which older, then earlier arrived, messages come first |
| Messages.DropRepeatsDistinctIff | src/screens/ChatScreen.js:380-383 | The adjacent filter leaves no id twice exactly when equal ids stand together in its input |
| Messages.DropRepeatsIds | src/screens/ChatScreen.js:380-383 | The adjacent filter loses no id and adds no message |
| DateLabels.InjectDateLabels | src/screens/ChatScreen.js:80-111 | The loop with its key counter yields the labelled form of any message list, each label before a row of its day and captioned for that day; the counter stays zero and no suffixed id is built |
| DateLabels.LabelsCaptioned | src/screens/ChatScreen.js:88-106 | Every label reads today for today's row behind it, yesterday for the day before and the day's text otherwise |
| DateLabels.Midnight | src/screens/ChatScreen.js:88-92 | For the same messages a day later, today's label reads yesterday, yesterday's its day's text, tomorrow's today; all else stays |
| DateLabels.LabelledIff | src/screens/ChatScreen.js:80-111 | The labelled form is the only list that gives the messages back when labels are erased and has labels exactly before day changes, never two adjacent, never last, each for the next message's day |
| DateLabels.UnderOwnLabel | src/screens/ChatScreen.js:85-108 | Every message stands under a label of its own day with only messages of that day between |
| DateLabels.LabelsCountDays | src/screens/ChatScreen.js:87-105 | There are as many labels as day changes, the first day included |
| DateLabels.KeysDistinctIff | src/screens/ChatScreen.js:93-100 | For any message list, label and row keys together are pairwise distinct exactly when no day is entered twice and no id repeats |
| DateLabels.LabelledKeys | src/screens/ChatScreen.js:388-393 | The keys of a labelled list are one per day and one per message id |
| Timeline.MessagesWithDateLabels | src/screens/ChatScreen.js:377-385 | Sorting, filtering and labelling with the loop gives the modelled timeline |
| Timeline.KeysDistinctIffNoSplit | src/screens/ChatScreen.js:377-393 | For every store, the timeline's keys are pairwise distinct exactly when sorting puts no foreign id between two equal ids |
| Timeline.TimelineFaithful | src/screens/ChatScreen.js:377-393 | When ids and creation times determine each other, each id is shown exactly once, as it first arrived, in strictly increasing time, and all keys are distinct |
| Timeline.DeliveryInvisibleIff | src/screens/ChatScreen.js:334-336 | For every store and message, appending it leaves the timeline unchanged exactly when the held message it sorts behind has its id |
| Timeline.RedeliveryInvisible | src/screens/ChatScreen.js:334-336 | Redelivery of a held id is invisible, whatever its text, while ids and times determine each other |
| Timeline.AppendNewest | src/screens/ChatScreen.js:334-336 | A message with a new id that is not older than any held one extends the old timeline by itself, behind one label exactly when no shown message is of its day |
| Timeline.ChangeInPlace | src/screens/ChatScreen.js:343-352 | Any change of messages that keeps ids and creation times commutes with the whole view and keeps every key |
| SenderRuns.RunClosesOnItsDay | src/screens/ChatScreen.js:417-422 | From every message there is exactly one first flagged row with only its sender and its day up to it |
| SenderRuns.FlagIff | src/screens/ChatScreen.js:417-422 | The flag read off the labelled list is set exactly on the messages whose successor has another sender or day |
| SenderRuns.FlagsCountBlocks | src/screens/ChatScreen.js:417-422 | For any cut of the messages into maximal same-sender, same-day blocks there are as many flags as blocks |
| SenderRuns.Blocks | src/screens/ChatScreen.js:417-422 | Every message list has such a cut, and it gives the list back |
| ChatScreen.UnsendCommutes | src/screens/ChatScreen.js:340-357 | For every store, the timeline after an unsend is the old timeline with every row of the message marked in place, no other row touched, under the same keys |
| ChatScreen.UnsendKeepsFlags | src/screens/ChatScreen.js:340-357 | An unsend changes no last-from-sender flag |
| ChatScreen.UnsendIdempotent | src/screens/ChatScreen.js:343-352 | A second unsend of the same id changes nothing, in the store and on the screen |
| ChatScreen.UnsendLasts | src/screens/ChatScreen.js:340-357 | In every run, whatever arrives, is trimmed or translated after an unsend, a settled screen shows the message as unsent only, as long as no unmarked copy is brought in |
| ChatScreen.TranslateCommutes | src/screens/ChatScreen.js:589-596 | A translation puts its copy in every row of the message and leaves order, labels, keys and other rows alone whenever all held copies have the creation time of the copy it started from |
| ChatScreen.TranslateFoundCommutes | src/screens/ChatScreen.js:565-596 | In particular for the copy found in a store in which ids and times determine each other |
| ChatScreen.TwiceHeldTranslation | src/screens/ChatScreen.js:565-596 | For every message held twice with another between, translating its first copy takes the later row off the screen |
| TranslatedView.TranslateCommutesIff | src/screens/ChatScreen.js:589-596 | While no id is split in the sorted list, a translation commutes with the whole view exactly when no held copy of its message changes sides with another message and the message's row stays on its day |
| TranslatedView.RowsKeptIff | src/screens/ChatScreen.js:589-596 | Leaving labels aside, it commutes with the rows shown exactly when no held copy changes sides |
| TranslatedView.LateCopyTranslation | src/screens/ChatScreen.js:565-596 | Two copies that stand together are parted by translating the first, when the later-arrived one was older and another message of the first one's time arrived between them |
| ChatScreen.TranslateKeepsFlags | src/screens/ChatScreen.js:589-596 | A translation changes no last-from-sender flag when the message's rows have the sender of its copy |
| ChatScreen.MarkSurvivesTranslationIff | src/screens/ChatScreen.js:566-596 | An unsend made before a translation is committed survives it exactly when the copy translated was already marked |
| ChatScreen.LoadShowsVisible | src/screens/ChatScreen.js:290-322 | A load holds exactly the messages the user has not deleted, with each non-empty stored translation on its message, and leaves order, labels and keys alone |
| ChatScreen.HandlerProjects | src/screens/ChatScreen.js:322-357 | Whatever is queued, a handler's event acts on the store to come as on the history: an arrival is appended, a load replaces, marks change their message, failures nothing |
| ChatScreen.FailureChangesNothing | src/screens/ChatScreen.js:287-356 | A failed load, unsend or translation changes nothing |
| ChatScreen.ArrivalIsHeld | src/screens/ChatScreen.js:334-336 | In every run a delivered message is held, as many places before the end as messages arrived since, until a reload or 50 arrivals; unchanged unless unsent or translated |
| ChatScreen.EffectTrimsIff | src/screens/ChatScreen.js:441-450 | A trim to the last 50 is queued exactly for over 100 messages of a length not just seen |
| ChatScreen.SettledIsSuffix | src/screens/ChatScreen.js:322-336 | In every settled state of every run the store is the end of the last load plus later arrivals with the same marks, and is all of it or at least 50 messages |
| ChatScreen.SettledLongIff | src/screens/ChatScreen.js:441-450 | In every run a settled store holds over 100 messages exactly when the last render restored the very length, over 100, that the trim effect had seen last |
| ChatScreen.SettledAtMost100 | src/screens/ChatScreen.js:441-450 | In particular never if nothing queued behind a trim would leave over 100 messages |
| ChatScreen.StalledSettlesLong | src/screens/ChatScreen.js:441-450 | Effects due on an over-long list of the length they saw last miss the trim |
| ChatScreen.SettledLongWasStalled | src/screens/ChatScreen.js:441-450 | In every run a settled list of over 100 messages is the outcome of effects due on a list of the length they saw last, and of nothing since |
| ChatScreen.ReloadBeatsTrim | src/screens/ChatScreen.js:441-450 | For every list of over 100 messages, a run that loads it, reloads it while the trim is queued and settles with all of it |
| TrimmedView.TrimShowsNewest | src/screens/ChatScreen.js:441-450 | When no dropped message is newer than a kept one, the screen after a trim is the end of the screen before, up to a first row that was hidden behind its own id |
| TrimmedView.TrimLosesNewer | src/screens/ChatScreen.js:441-450 | A dropped message newer than a kept one, whose id is not kept, leaves the screen while the older one stays |
| TrimmedView.TrimShowsNewestIff | src/screens/ChatScreen.js:441-450 | When no id is on both sides of a trim, the screen after it is the end of the screen before exactly when no dropped message is newer than a kept one |
| TrimmedView.NewestTrimmed | src/screens/ChatScreen.js:441-450 | For every newest message loaded before 100 older ones, a run that settles without it and with older ones |
| ChatScreen.Screen.constructor | src/screens/ChatScreen.js:116 | The screen starts with an empty store |
| ChatScreen.Screen.HandleNewMessage | src/screens/ChatScreen.js:334-336 | Queues exactly the modelled append |
| ChatScreen.Screen.HandleMessageUnSended | src/screens/ChatScreen.js:340-357 | Queues exactly the modelled unsend, on success only |
| ChatScreen.Screen.GetAllMessage | src/screens/ChatScreen.js:278-330 | Queues exactly the modelled load, on success only |
| ChatScreen.Screen.FinishTranslation | src/screens/ChatScreen.js:589-596 | Queues exactly the modelled replacement, for a non-empty text only |
| ChatScreen.Screen.OptimizeMemory | src/screens/ChatScreen.js:441-450 | The trim is queued exactly when the length changed and exceeds 100 |
| ChatScreen.Screen.Commit | src/screens/ChatScreen.js:322-345 | A render runs due effects and then applies the queued updates in order |
| UserProfiles.RequestsExactly | src/hooks/useUserProfile.js:8-69 | Over every interleaving the requests for a user are exactly its first one if an effect asked first, one per refresh, and one per effect that found an answer without data held |
| UserProfiles.OneBesidesRefreshesIff | src/hooks/useUserProfile.js:8-69 | They are at most one plus the refreshes exactly when no effect found such an answer, or one did where a refresh had asked first |
| UserProfiles.RequestsShared | src/hooks/useUserProfile.js:8-22 | So they are at most one plus the refreshes plus the answers without data, and each cache entry is a pending request for, or an answer to a request for, its own user |
| UserProfiles.AlwaysFresh | src/hooks/useUserProfile.js:17-20 | If every refresh finds no unanswered request for its user, the cache holds the newest request or its answer in every reachable state |
| UserProfiles.StepSafe | src/hooks/useUserProfile.js:8-69 | Every other step keeps the cache fresh and free of old unanswered requests |
| UserProfiles.RefreshSafeIff | src/hooks/useUserProfile.js:55-61 | A refresh keeps the cache safe exactly when its user has no unanswered request |
| UserProfiles.RefreshAsksAgain | src/hooks/useUserProfile.js:55-61 | A refresh always issues one request, the newest of its user and the one cached, and sets its hook loading |
| UserProfiles.OldAnswerGoesStale | src/hooks/useUserProfile.js:18-20 | Some answer to a request that is not the newest replaces what is newer |
| UserProfiles.RunConsistent | src/hooks/useUserProfile.js:31-53 | In every refresh-free run each mounted hook agrees with its one live effect: whose user it has, whether it has been served, and with what |
| UserProfiles.RunKept | src/hooks/useUserProfile.js:8-53 | In every refresh-free run in which no answer to a user lacks data, whatever others are answered, that user's requests are still held and its continuations agree with the cache |
| UserProfiles.IdleHookShowsCache | src/hooks/useUserProfile.js:31-53 | In refresh-free runs a mounted hook that is not loading shows exactly the cached profile of its current user, if no answer to that user lacks data, or nothing without a user |
| UserProfiles.LoadingIffUnanswered | src/hooks/useUserProfile.js:38-49 | Under the same condition, once settled promises are served, a mounted hook is loading exactly while its user's request is unanswered |
| UserProfiles.CancelledNeverWrites | src/hooks/useUserProfile.js:40-52 | In every run serving a promise changes a hook only for a refresh or as the live effect of that mounted hook, and without refreshes only as the latter |
| UserProfiles.UnmountedIsSilent | src/hooks/useUserProfile.js:50-52 | In every run a hook that has been unmounted and never refreshes is never written to again, and a change of user fetches nothing for it |
| ShownProfiles.IdleHookAgreesIff | src/hooks/useUserProfile.js:31-69 | In every run, refreshes or not, an idle hook shows the cached profile of its user exactly when an answer is cached and the request it was last served from was answered like the one answered last |
| ShownProfiles.IdleHookAlwaysAgreesIff | src/hooks/useUserProfile.js:31-69 | For every run, it does so whatever profiles the requests are answered with exactly when it was last served from the request of its user answered last |
| ShownProfiles.RefreshShowsFormerUser | src/hooks/useUserProfile.js:61-64 | A run with one quiet refresh in which an idle hook shows its former user's profile |
| ShownProfiles.SiblingStaysBehind | src/hooks/useUserProfile.js:61-64 | For any two different answers, a run with one quiet refresh and no user change after which a second hook shows the first answer and the cache holds the second |
| ShownProfiles.MissingAsksAgain | src/hooks/useUserProfile.js:8-20 | A refresh-free run in which an answer without data leads to a second request and an idle hook that agrees with nothing cached |
| UserProfiles.Profiles.FetchUserProfile | src/hooks/useUserProfile.js:8-22 | Returns the cached promise or value, or, when none or an undefined one is held, issues one request and caches it |
| UserProfiles.Profiles.Effect | src/hooks/useUserProfile.js:31-49 | With a user the effect starts loading and waits for the shared promise or value; without one it clears the profile |
| UserProfiles.Profiles.MountHook | src/hooks/useUserProfile.js:24-53 | Mounting adds a hook, starts its effect and leaves every other hook alone |
| UserProfiles.Profiles.SetUser | src/hooks/useUserProfile.js:50-53 | A change of user cancels the old effect and runs the new one |
| UserProfiles.Profiles.UnmountHook | src/hooks/useUserProfile.js:50-52 | Unmounting cancels the effect |
| UserProfiles.Profiles.RefreshProfile | src/hooks/useUserProfile.js:55-69 | A refresh drops the entry, starts loading and fetches |
| UserProfiles.Profiles.Settle | src/hooks/useUserProfile.js:15-20 | A response settles its request and is cached under its user |
| UserProfiles.Profiles.Serve | src/hooks/useUserProfile.js:40-49 | A settled promise is shown unless its effect was cancelled |
| OrderWindow.ThirtyDays | src/screens/Order.js:158-161 | Any 30 consecutive days hold 20 to 22 working days |
| OrderWindow.OrderableDays | src/screens/Order.js:284-294 | At most 22 different days of the window can be ordered for |
| Orders.ValidItemsMembers | src/screens/Order.js:101-103 | A load keeps exactly the orders of the answer that exist and have an id |
| Orders.LoadSets | src/screens/Order.js:100-120 | A load keeps the first 100 such orders in the answer's order, a failed one empties the list; neither touches the selection or requests in flight |
| Orders.ValidItemsAppend | src/screens/Order.js:101-103 | The orders kept of an answer are those kept of its parts, in order |
| Orders.FailureChangesNothing | src/screens/Order.js:242-250 | An answer without data changes nothing, a failed placement or delete only ends its request |
| Orders.PressGoesOutIff | src/screens/Order.js:284-323 | A press goes out exactly for one of the 30 days from today that is no Saturday, Sunday or holiday and has no order |
| Orders.PlacementSucceeds | src/screens/Order.js:217-241 | A placement selects its shift and, below 100 orders, appends it unpicked under the server's id or else the time |
| Orders.DeleteGoesOutIff | src/components/OrderModal.js:456-465 | A delete goes out exactly for a shown order of that id that is neither past nor picked |
| Orders.DeleteKeepsOthers | src/components/OrderModal.js:101-112 | A delete leaves in both copies exactly the orders of other ids of the lists it captured |
| Orders.SyncCopies | src/components/OrderModal.js:53-57 | The modal's effect copies the list and changes nothing else |
| Orders.CopiesAgree | src/screens/Order.js:100-120 | In every run, whatever handlers captured, `orderedDates` is the image of `ordered`, `picked` counts its picked orders, at most 100 orders are held and the modal's settled copy is the list |
| Orders.DeleteTakesOne | src/components/OrderModal.js:101-112 | A delete that saw the current lists takes the one order of its id out of both, the others staying in place, and unselects its day |
| Orders.OneOrderPerDay | src/screens/Order.js:134-141 | On orderly runs every order placed here lies on one of the 30 days from today, no Saturday, Sunday or holiday, that no other order shares, and the list exceeds the loaded one by at most 22 |
| Orders.CapNeverDrops | src/screens/Order.js:232-241 | With at most 78 orders loaded every placement is kept |
| Orders.SelectedIffOrdered | src/screens/Order.js:309-313 | On orderly runs in which each placement finds room and a new id, a shift shows as selected exactly when the list holds that day and shift |
| Orders.SelectedIffOrderedBelow78 | src/screens/Order.js:309-313 | In particular on those runs with at most 78 orders loaded, which always find room |
| Orders.DeletedBackedIff | src/screens/Order.js:253-279 | A delete, whatever it captured, leaves no selection without an order exactly when the captured list holds, under another id, the order of every selected day but the deleted one's |
| Orders.DeletedBacked | src/screens/Order.js:253-279 | Deleting from the current list leaves no selection without an order |
| Orders.PlacedBackedIff | src/screens/Order.js:219-241 | A placement on a free day leaves no selection without an order exactly when the list has room |
| Orders.PlacedOnePerDayIff | src/screens/Order.js:134-141 | Below the cap a placement keeps placed orders alone on their days exactly when the day's buttons are not disabled as its answer arrives |
| Orders.AllAnsweredOnePerDayIff | src/screens/Order.js:198-241 | Once all presses in flight have been answered, in any order, placed orders are alone on their days exactly when the days pressed were different and free |
| Orders.TwoPressesOneDay | src/screens/Order.js:198-241 | A run with two presses in flight for one day ends with two orders on it |
| Orders.DeleteLosesPlacement | src/screens/Order.js:253-282 | A run with a placement during a delete ends with the order shown but not held |
| Orders.OrderScreen.constructor | src/screens/Order.js:56-60 | The screen starts empty |
| Orders.OrderScreen.GetUserOrders | src/screens/Order.js:90-122 | A load sets the three list fields as modelled, or empties them on failure |
| Orders.OrderScreen.PressShiftButton | src/screens/Order.js:309-323 | A press goes out only for a shown working day without an order |
| Orders.OrderScreen.FinishPlacing | src/screens/Order.js:217-241 | A successful placement selects the day and, below the cap, appends the unpicked order to the list and its image |
| Orders.OrderScreen.PressDeleteButton | src/components/OrderModal.js:456-465 | A delete goes out only for an order that is neither past nor picked, with the lists it saw |
| Orders.OrderScreen.FinishDeleting | src/components/OrderModal.js:96-112 | A successful delete filters the captured modal list and notifies the screen |
| Orders.OrderScreen.HandleOrderDeleted | src/screens/Order.js:253-282 | The screen recomputes its fields from the captured list and unselects the deleted order's day |
| Orders.OrderScreen.SyncLocalOrders | src/components/OrderModal.js:53-57 | The modal's effect copies the list's valid orders |
| Conversations.Unique | src/screens/Message.js:321-332 | The reduce loop keeps exactly the first row of each conversation in order |
| Conversations.FirstsCharacterised | src/screens/Message.js:321-332 | The reduction's rows are the first of their ids, all ids are kept, none twice, and a second reduction changes nothing |
| Conversations.FoundIds | src/screens/Message.js:410-443 | The conversations found are those of the matching rows, or all loaded ones for a blank query |
| Conversations.FoundIff | src/screens/Message.js:424-432 | A query that is not blank finds exactly the conversations with a loaded row whose lowered name contains the lowered query; rows without a name are never found |
| Conversations.SearchShows | src/screens/Message.js:410-443 | A search shows only loaded rows that match the query, from exactly the conversations found, and leaves the loaded rows alone |
| Conversations.LoadedVisible | src/screens/Message.js:311-333 | A load holds exactly the rows the user has not deleted and shows their reduction |
| Conversations.DeleteHidesOnly | src/screens/Message.js:369-371 | A delete takes exactly the rows of its conversation off the screen and leaves the loaded rows alone |
| Conversations.ShorterQueryFindsMore | src/screens/Message.js:410-443 | The conversations found for a query are among those found for any substring of it |
| Conversations.BlankSearchRestores | src/screens/Message.js:369-422 | Whatever was searched and deleted before, a blank search shows the full reduction of the loaded list, a deleted conversation included |
| Conversations.ShownOnce | src/screens/Message.js:311-443 | In every run each conversation is shown at most once and only if loaded |
| Conversations.MessageScreen.HandleGetConversations | src/screens/Message.js:301-333 | A load keeps the rows the user has not deleted and shows each conversation once |
| Conversations.MessageScreen.HandleSearch | src/screens/Message.js:410-444 | A search shows the first matching row of each conversation and leaves the loaded rows alone |
| Conversations.MessageScreen.HandleDeleteConversation | src/screens/Message.js:369-371 | A delete filters the shown rows only |
| UnreadCounter.CountsEager | src/components/ConversationPanel.js:68-88 | In every run the counter is the number of messages eagerly committed away from the bottom since the last reset, and zero at the bottom |
| UnreadCounter.CountIsUnreadIff | src/components/ConversationPanel.js:68-78 | The counter is the number of unread messages exactly when none of their updates read the ref late, and never exceeds the list |
| UnreadCounter.LastReset | src/components/ConversationPanel.js:85-87 | Since that commit no scroll has ended at the bottom |
| UnreadCounter.ConversationPanel.OnScroll | src/components/ConversationPanel.js:80-88 | A scroll sets the position and resets the counter at the bottom |
| UnreadCounter.ConversationPanel.RunEffect | src/components/ConversationPanel.js:68-78 | The effect counts new messages away from the bottom, for either reading of the ref, and remembers the length |
| UnreadCounter.ConversationPanel.Render | src/components/ConversationPanel.js:68-88 | A render applies its scrolls and runs the effect exactly when position or length changed |
| DailyReport.TenthsNearest | src/screens/Daily.js:316-319 | The text of `toFixed(1)` is the nearest tenth, the larger of two, as section 21.1.3.3 of ECMA-262 asks |
| DailyReport.PiecesConserved | src/screens/Daily.js:307-319 | For a positive total, net quantity plus losses is the total, each displayed percentage is within 0.05 of its loss, and the three together are within 0.15 of the share that is not net |
| DailyReport.EfficiencyShownIff | src/screens/Daily.js:303-306 | The efficiency is shown as a number exactly when some time was worked, and is then within 0.05 of ideal time over worked time |
| DailyReport.ReportForm.Calculate | src/screens/Daily.js:297-324 | Without a product nothing is set; otherwise all five figures are set and the send button is shown |
| DailyReport.GoodQuantityIsNetIff | src/screens/Daily.js:245-246 | The good quantity sent is the net quantity exactly when the losses sum to zero |
| DailyReport.GoodQuantityIs | src/screens/Daily.js:245-246 | After a calculation the good quantity sent is the total less twice the losses |
| DailyReport.ShareOfNothing | src/screens/Daily.js:307-317 | With a total of zero a share is shown as an infinity of the loss's sign, or as NaN |
| DailyReport.UnreadableField | src/screens/Daily.js:245-319 | An unreadable count makes net quantity and its own share NaN, and zero is sent |
| DailyReport.InfinityTable | src/screens/Daily.js:303-315 | The operators on infinities and zero divisors are those of section 6.1.6.1 of ECMA-262 |
| DailyReport.RowIdsUnique | src/screens/Daily.js:177-192 | Row ids are distinct in every run in which the clock moves on between a delete and the next add |
| DailyReport.AddKeepsIdsIff | src/screens/Daily.js:177-188 | An add keeps row ids distinct exactly when no held row has the id made of its time and the list's length |
| DailyReport.IdsAlwaysDistinctIff | src/screens/Daily.js:177-226 | Row ids are distinct throughout a run of adds, deletes and edits exactly when every add finds its id unused |
| DailyReport.SameInstantCollides | src/screens/Daily.js:177-192 | Within one instant an add, an add, a delete and an add give two rows one id |
| DailyReport.EditKeepsOthers | src/screens/Daily.js:203-226 | Selecting a code or changing a field edits every row of its id as a single row is, moves no row, keeps every id and touches no other row |
| DailyReport.FieldSet | src/screens/Daily.js:222-226 | A change sets the named field of a row and no other |
| DailyReport.CodeSelected | src/screens/Daily.js:203-217 | Selecting a code fills in its standard text exactly over an empty text or the old code's standard text |
| DailyReport.DeleteRemovesOnly | src/screens/Daily.js:190-192 | A delete removes the rows of its id and no other |
| DailyReport.TypedTextKeptIff | src/screens/Daily.js:203-217 | A typed description outlives selections exactly when it is not the standard text of an earlier selected code, or is that of the last |
| DailyReport.ErrorRows.HandleAddErrorRow | src/screens/Daily.js:177-188 | Adding appends one empty row under an id made of time and list length |
| DailyReport.ErrorRows.HandleDeleteErrorRow | src/screens/Daily.js:190-192 | Deleting filters out the rows of the id |
| DailyReport.ErrorRows.HandleChangeErrorField | src/screens/Daily.js:222-226 | A change sets one field of the rows of its id |
| UserSelection.AfterIsStanding | src/components/UserModal.js:67-75 | After any toggles the selection consists of the users toggled an odd number of times, in the order of their latest toggles |
| UserSelection.SelectedIffOdd | src/components/UserModal.js:67-75 | A user is selected exactly when toggled an odd number of times, and never twice |
| UserSelection.UserModal.ToggleUserSelection | src/components/UserModal.js:67-75 | A toggle removes a selected user and appends an unselected one |
| UserSelection.UserModal.HandleClose | src/components/UserModal.js:85-90 | Closing empties selection, group name and search |
| UserSelection.UserModal.HandleCreateChat | src/components/UserModal.js:132-145 | A chat is created exactly for one user, or for several with a group name; the fields are then cleared, otherwise kept |

## Left out

- Rendering, styles, animations, navigation, themes and texts: no state worth a proof.
- HTTP calls, the socket and stored settings appear only as events with arbitrary answers.
- Encryption, translation and language detection: a translation is any non-empty text; the check for an empty original is not modelled.
- Unparsable dates and a change of day between the label computations of one call: timestamps are numbers and `today` is one day per call.
- The fields of messages, orders and rows that no modelled code reads.
- The message list of the interpreter panel is append-only; the pixel test for the bottom is a boolean.
- DailyReport: arithmetic is over the reals with infinities and NaN, without floating-point rounding, signed zeros or the exponent form of very large values.
- Conversations: lower-casing is letter by letter, which leaves out the one context-dependent rule of the Greek final sigma; blanks are space, tab, newline and return.
- Orders: a press without a signed-in user and a day list that is rebuilt past midnight are not modelled.
- Profiles: user ids change only through the store value the hooks read; the state updates of a hook that has been unmounted are kept though React drops them.
- TranslateCommutes: a sufficient condition; the exact one, TranslateCommutesIff, is for stores without a split id, not for those whose list keys collide already.
- Users toggled: `toggleUserSelection` changes the list its render captured; each toggle is taken to see the one before, so two taps between renders, of which the first would be lost, are not modelled.
- Leave and manager filters, notifications, screens with fixed data, form validation and password rules: settled by reading one branch.
