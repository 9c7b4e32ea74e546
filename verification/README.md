# Verified model of KWin's state-keeping components

This project models six components of the KWin window manager and compositor that keep state
over long runs of events, and proves what holds of them in every run:

* **Gestures**: the gesture recognizer, the registry of global shortcuts that feeds it, and the
  multi-finger touch filter that drives it (`Gestures`, `GestureProtocol`, `GestureSignals`,
  `GestureRecognizer`, `GlobalShortcuts`, `ShortcutRouting`, `GlobalShortcutsManager`, `TouchSession`,
  `GlobalShortcutFilter`).
* **Focus chains**: one most-recently-used list and one list for each desktop (`FocusChains`,
  `FocusListing`, `FocusHistory`, `FocusSeparation`, `FocusChain`).
* **Effects**: the order of effects and the re-entrant painting pass (`EffectChain`,
  `EffectsHandler`), and the support properties effects announce on the root window
  (`SupportProperties`, `SupportPropertyClasses`).
* **Effect load queue** over the event loop (`EffectLoadQueue`).
* **Debug console** tree indices packed into 32 bits (`DebugConsole`).
* **Idle inhibition**: detectors, their timers and inhibiting windows (`IdleInhibition`).

`Lists` and `Handles` hold what several of them share.

Each component has a value type for its state, functions for what each operation makes of that
state, and a class whose methods work step by step as the source does, with its loops and in-place
edits; a method's contract equates the state before and after with the function. The theorems are
lemmas about those functions, over single steps and over all runs (sequences of operations); what an
operation does is also told there in other terms, by the fields of the objects and the operations of
the run.
Where a property does not hold in all runs, the exact condition is proved in both directions, and
that it can fail.

Assumptions, all stated in the contracts or in the notion of a run: coordinates and scales are
real numbers (division by zero is modelled, rounding is not); a gesture does not change once it is
registered; signal handlers do not re-enter the object that emits; an X atom corresponds to one
property name; the X connection is stable; a `QMultiMap` holds equal keys newest first; window
flags, output geometry, the allocator's addresses and the event loop's deliveries are parameters
or steps; which windows are hidden in a frame is arbitrary. In the notion of a run, events arrive
in any order unless a predicate (`Allowed`, `Legal`) repeats an assertion of the source.

Points where the code does less than its documentation promises, each with its exact condition:

* Ending a pinch drops active swipes without a signal (`BracketedIffNoSwipeDropped`,
  `SwipeCanBeDropped`) and leaves the swipe distance standing (`AxisAgreesIff`, `AxisRuleCanBreak`).
* After a cancelled swipe a pinch can trigger without having been moved
  (`PinchWithoutUpdateTriggersIff`, `CancelledSwipeArmsPinches`).
* Progress is promised within [0, 1]; it is not a number for a required component of zero
  (`SwipeProgressInUnit`, `PinchProgressInUnit`).
* An outside touch cancel leaves the recognizer in its session until the next start, end or
  cancel (`OpenAgreesIff`, `SessionAgreesIff`, `SessionCanBeAbandoned`).
* The distance test for touch points never fails (`DistanceTestNeverFails`).
* The separation of minimized windows is lost where a window is unminimized, which the chains are
  not told, before another minimized one (`UnminimizingLosesSeparation`, `BothMinimized`), and where
  an operation puts its window on the wrong side of another, as when a window on all desktops is
  minimized and stays in place in the chains of other desktops (`SeparationCanBeLost`); these are all
  the ways (`MruPartedIff`, `DesktopsPartedIff`).
* A finger that was down before a session started without it moves as if it came from the origin
  (`UpdateIsMovementIff`, `UntrackedFingerJumps`).
* A plain update is documented to make the active window the first in its chain and any other
  window the second; listed windows stay where they are, and new ones come first when the active
  window does not (`PlainUpdateAsDocumentedIff`).
* The debug console's ids fail beyond 10000 windows or at every 65536th property
  (`WindowRoundTripIff`, `PropertyRoundTripIff`), and a device's second column is not the parent
  of its own children (`DeviceRoundTripIff`).
* If the X server refuses the atom of a first announcement, the tables of support properties diverge
  (`AgreesIffNoRefusal`, `RefusalSpoilsTables`); what is managed stays safe all the same
  (`AlwaysSafe`).

## Model

| member | source | states |
|---|---|---|
| `Gestures.SwipeReachedIff` | src/gestures.cpp:44-65 | a swipe is complete exactly if no distance is required or its component along the direction is reached; a zero requirement is never met by zero movement |
| `Gestures.PinchReachedIff` | src/gestures.cpp:74-82 | a pinch is complete exactly if its scale differs from 1 by the required amount, which must not be negative |
| `Gestures.SwipeProgressInUnit` | src/gestures.h:100-104 | progress lies in [0, 1] unless it is 0/0, and exactly when that is |
| `Gestures.PinchProgressInUnit` | src/gestures.h:165-169 | the same for pinches |
| `GestureProtocol.RunSound` | src/gestures.cpp:91-131 | in every run lists name each gesture once, only registered ones are active, swipes and pinches are never active together, and a destroyed gesture is in no list |
| `GestureProtocol.StepSound` | src/gestures.cpp:91-387 | every operation keeps those invariants |
| `GestureProtocol.StepKeeps` | src/gestures.cpp:91-387 | no operation spoils the signal order of a gesture, except ending a pinch for the active swipes, which are then lost for good |
| `GestureProtocol.BracketedIffNoSwipeDropped` | src/gestures.cpp:373-387 | over whole runs: each `started` is closed by exactly one `triggered` or `cancelled`, and a gesture is open exactly while active, if and only if no pinch was ended while swipes were active |
| `GestureProtocol.SwipeCanBeDropped` | src/gestures.cpp:382 | any run that left the recognizer idle can be continued so that a swipe is lost |
| `GestureProtocol.UpdateChooses` | src/gestures.cpp:234-255 | the two elimination rounds amount to: the active swipes that follow the movement or came from a border; only if none, and no pinch is active, the registered ones that fit, in order |
| `GestureProtocol.UpdatePinchChooses` | src/gestures.cpp:342-358 | the same choice for pinches |
| `GestureProtocol.HeadingFollowsMovement` | src/gestures.cpp:201-232 | the direction lies on the locked axis, else on that of the larger component, with the movement's sign |
| `GestureProtocol.UpdateReportsToActive` | src/gestures.cpp:257-261 | exactly the gestures left active are told the distance, and the current one |
| `GestureProtocol.DeltaIsTravelled` | src/gestures.cpp:199-301 | in every run the stored delta is the sum of all movements since the last reset |
| `GestureProtocol.StepAxis` | src/gestures.cpp:204-220 | a locked axis stays until an end or cancel; the axis rule survives every step except ending a pinch on a long distance |
| `GestureProtocol.AxisAgreesIff` | src/gestures.cpp:373-387 | at every moment of a run an open axis means less than 5 units and a locked one that active non-border swipes lie on it, if and only if no pinch was ended on a kept distance of 5 or more |
| `GestureProtocol.AxisRuleCanBreak` | src/gestures.cpp:373-387 | any run can be continued by a long movement and the end of a pinch so that the rule fails |
| `GestureProtocol.EndSwipeTriggersExactly` | src/gestures.cpp:287-301 | ending triggers exactly the active swipes whose required component is reached by the distance since the last reset and cancels the rest |
| `GestureProtocol.ScaleIsScaleLeft` | src/gestures.cpp:274 | in every run the stored scale is what the last operation on it left, 0 after a cancelled swipe |
| `GestureProtocol.PinchWithoutUpdateTriggersIff` | src/gestures.cpp:373-386 | a pinch ended without update triggers exactly if the left-over scale meets its requirement |
| `GestureProtocol.CancelledSwipeArmsPinches` | src/gestures.cpp:264-285 | right after a cancelled swipe every fitting pinch with a requirement of at most 1 does |
| `GestureSignals.CancelTellsAll` | src/gestures.cpp:264-285 | cancelling a swipe or a pinch tells each active gesture once that it is cancelled, swipes first, in order, and nothing else |
| `GestureSignals.UnregisterTells` | src/gestures.cpp:99-131 | unregistering or destroying a gesture tells it that it is cancelled exactly if it was active, and no other gesture anything |
| `GestureSignals.EndSwipeTells` | src/gestures.cpp:287-301 | each active swipe is told in order that it is triggered, exactly if it went as far along its direction as its settings ask, or cancelled |
| `GestureSignals.EndPinchTells` | src/gestures.cpp:373-387 | each active pinch is told in order that it is triggered, exactly if the scale differs from 1 as its settings ask, or cancelled; swipes are told nothing |
| `GestureSignals.StartSwipeActivates` | src/gestures.cpp:133-195 | exactly the registered swipes become active whose ranges of fingers and start positions are met and whose direction is not across the axis |
| `GestureSignals.StartPinchActivates` | src/gestures.cpp:303-328 | exactly the registered pinches whose range of fingers is met |
| `GestureSignals.StartTells` | src/gestures.cpp:133-195 | exactly the gestures activated are told that they are started, in order |
| `GestureSignals.FingersAreLeft` | src/gestures.cpp:133-136 | in every run the number of fingers is that of the last start, 0 after an end or a cancel |
| `GestureSignals.UpdateSwipeMoves` | src/gestures.cpp:197-262 | an update adds the movement, locks an open axis exactly at a component of 5 units, to the larger one, and leaves only swipes active that go along or are bounded on four sides |
| `GestureSignals.UpdatePinchScales` | src/gestures.cpp:330-363 | an update sets the scale and leaves only pinches active that contract, for a scale below 1, or expand |
| `GestureSignals.UpdateSwipeKeepsWhatGoesAlong` | src/gestures.cpp:234-255 | an update leaves exactly the active swipes active that go along or are bounded on four sides; without such ones, and with no pinch active, the registered ones that do and fit fingers and axis |
| `GestureSignals.UpdatePinchKeepsWhatGoesAlong` | src/gestures.cpp:342-358 | the same for pinches, by contracting or expanding |
| `GestureSignals.SwipeProgressIs` | src/gestures.cpp:44-60 | progress is the share of the required component that is reached, at most 1 |
| `GestureSignals.UpdateSwipeTells` | src/gestures.cpp:234-261 | starts and cancellations tell every change in what is active, with no verdict among them; then each swipe left active is told its progress and the distance, in order |
| `GestureSignals.UpdatePinchTells` | src/gestures.cpp:342-363 | the same for pinches and their share of the scale difference |
| `GestureRecognition.GestureRecognizer.RegisterSwipeGesture` | src/gestures.cpp:91-97 | the gesture is listed last and watched |
| `GestureRecognition.GestureRecognizer.UnregisterSwipeGesture` | src/gestures.cpp:99-110 | it leaves all lists and is cancelled if it was active |
| `GestureRecognition.GestureRecognizer.RegisterPinchGesture` | src/gestures.cpp:112-118 | the gesture is listed last and watched |
| `GestureRecognition.GestureRecognizer.UnregisterPinchGesture` | src/gestures.cpp:120-131 | it leaves all lists and is cancelled if it was active |
| `GestureRecognition.GestureRecognizer.StartSwipeGesture` | src/gestures.cpp:133-195 | starts exactly the fitting registered swipes, in order, unless something is active, and counts them |
| `GestureRecognition.GestureRecognizer.EliminateSwipes` | src/gestures.cpp:237-254 | one round: restart if nothing is active, cancel and erase in place what does not follow |
| `GestureRecognition.GestureRecognizer.UpdateSwipeGesture` | src/gestures.cpp:197-262 | the loops reach the state and signals of the specified update |
| `GestureRecognition.GestureRecognizer.CancelSwipeGesture` | src/gestures.cpp:279-285 | cancels all active gestures, swipes first, and resets |
| `GestureRecognition.GestureRecognizer.EndSwipeGesture` | src/gestures.cpp:287-301 | tells each active swipe its verdict in order and resets |
| `GestureRecognition.GestureRecognizer.StartPinchGesture` | src/gestures.cpp:303-328 | starts exactly the fitting registered pinches unless something is active |
| `GestureRecognition.GestureRecognizer.EliminatePinches` | src/gestures.cpp:344-357 | one round for pinches |
| `GestureRecognition.GestureRecognizer.UpdatePinchGesture` | src/gestures.cpp:330-363 | the loops reach the state and signals of the specified update |
| `GestureRecognition.GestureRecognizer.CancelPinchGesture` | src/gestures.cpp:365-371 | cancels everything, scale back to 1 |
| `GestureRecognition.GestureRecognizer.EndPinchGesture` | src/gestures.cpp:373-387 | verdicts for pinches only; active swipes are forgotten, the delta is kept |
| `GlobalShortcuts.SwipeShortcutGesture` | src/globalshortcuts.cpp:34-61 | the gesture made for a swipe shortcut takes part exactly for its fingers and direction; a realtime one completes at 200 units |
| `GlobalShortcuts.PinchShortcutGesture` | src/globalshortcuts.cpp:64-80 | the same for pinch shortcuts, complete at a scale difference of 0.2 |
| `GlobalShortcuts.AlwaysAgrees` | src/globalshortcuts.cpp:137-215 | after any requests shortcuts are pairwise unequal and each recognizer lists exactly its device's gestures in registration order |
| `GlobalShortcuts.HandleAgrees` | src/globalshortcuts.cpp:137-344 | every request, input included, keeps that agreement |
| `GlobalShortcuts.ForceReplaces` | src/globalshortcuts.cpp:203-215 | forced registration replaces exactly the equal shortcut and comes last |
| `GlobalShortcuts.DropActionDrops` | src/globalshortcuts.cpp:137-147 | the erasing loop removes exactly the action's shortcuts and keeps the order of the others |
| `GlobalShortcuts.DestroyedActionIsGone` | src/globalshortcuts.cpp:137-147 | a destroyed action's gesture is neither registered nor active anywhere |
| `GlobalShortcuts.PressInvokesTheOne` | src/globalshortcuts.cpp:264-287 | a press invokes the action of the one equal shortcut there is, or none |
| `ShortcutRouting.RegisteredWhereItBelongs` | src/globalshortcuts.cpp:149-215 | after any requests a swipe is registered with the touchpad's recognizer exactly if it belongs to a swipe shortcut for the touchpad, with the touchscreen's exactly if for the touchscreen; pinches only with the touchpad's |
| `ShortcutRouting.AddedToItsDevice` | src/globalshortcuts.cpp:149-166 | a new swipe shortcut puts a new gesture last into the list of the recognizer of its own device, and the other recognizer stays as it is |
| `ShortcutRouting.ForcedToTouchscreen` | src/globalshortcuts.cpp:203-215 | a forced touchscreen swipe comes last in the touchscreen's list, without the gesture it replaces; the touchpad's lists stay |
| `ShortcutRouting.SameInputIff` | src/globalshortcuts.h:132-203 | shortcuts are equal exactly if they are of one kind and mean the same keys, modifiers and button or axis, or device, direction and fingers |
| `ShortcutRouting.TakenIsRefused` | src/globalshortcuts.cpp:149-153 | adding a shortcut for an input that is taken changes no shortcut and no recognizer |
| `ShortcutRouting.AddedIsInvoked` | src/globalshortcuts.cpp:264-287 | once added, a shortcut's input invokes its action, and adding it invoked nothing |
| `ShortcutRouting.InputReachesItsDevice` | src/globalshortcuts.cpp:289-344 | input from a device reaches its recognizer and leaves the other one and the shortcuts alone |
| `ShortcutRouting.SwipeStartsItsShortcuts` | src/globalshortcuts.cpp:289-296 | in every run, fingers put down on a device at rest start exactly the gestures of the swipe shortcuts for that device with as many fingers |
| `ShortcutRouting.PinchStartsItsShortcuts` | src/globalshortcuts.cpp:326-329 | and pinches those of the pinch shortcuts with as many fingers |
| `GlobalShortcutsManagement.GlobalShortcutsManager.AddIfNotExists` | src/globalshortcuts.cpp:149-166 | registers with the device's recognizer and reports success exactly if no equal shortcut is known |
| `GlobalShortcutsManagement.GlobalShortcutsManager.ForceRegisterTouchscreenSwipe` | src/globalshortcuts.cpp:203-215 | reaches the specified replacement and keeps agreement |
| `GlobalShortcutsManagement.GlobalShortcutsManager.ObjectDeleted` | src/globalshortcuts.cpp:137-147 | the in-place erasing loop reaches the specified state and keeps agreement |
| `GlobalShortcutsManagement.GlobalShortcutsManager.ProcessPointer` | src/globalshortcuts.cpp:264-287 | returns whether an equal shortcut is known and triggers the first |
| `GlobalShortcutsManagement.GlobalShortcutsManager.ProcessSwipeStart` | src/globalshortcuts.cpp:289-296 | the device's recognizer starts, the other one is untouched |
| `GlobalShortcutsManagement.GlobalShortcutsManager.ProcessSwipeUpdate` | src/globalshortcuts.cpp:298-305 | the device's recognizer updates, the other one is untouched |
| `GlobalShortcutsManagement.GlobalShortcutsManager.ProcessSwipeCancel` | src/globalshortcuts.cpp:307-314 | the device's recognizer cancels, the other one is untouched |
| `GlobalShortcutsManagement.GlobalShortcutsManager.ProcessSwipeEnd` | src/globalshortcuts.cpp:316-324 | the device's recognizer ends, the other one is untouched |
| `GlobalShortcutsManagement.GlobalShortcutsManager.ProcessPinchStart` | src/globalshortcuts.cpp:326-329 | pinches start on the touchpad only |
| `GlobalShortcutsManagement.GlobalShortcutsManager.ProcessPinchUpdate` | src/globalshortcuts.cpp:331-334 | pinches update on the touchpad only |
| `GlobalShortcutsManagement.GlobalShortcutsManager.ProcessPinchCancel` | src/globalshortcuts.cpp:336-339 | pinches cancel on the touchpad only |
| `GlobalShortcutsManagement.GlobalShortcutsManager.ProcessPinchEnd` | src/globalshortcuts.cpp:341-344 | pinches end on the touchpad only |
| `TouchSession.DistanceTestNeverFails` | src/input.cpp:1031-1054 | the distance test includes the finger just put down and always passes |
| `TouchSession.PressSends` | src/input.cpp:1024-1066 | in a session a press cancels; otherwise the third finger starts one unless a finger came more than 250 ms after the one before it |
| `TouchSession.MotionSends` | src/input.cpp:1068-1086 | an open session sends five times the finger's way in millimetres, shared among the fingers, horizontal and vertical apart; an untracked finger comes from the origin and counts from then on |
| `TouchSession.LiftSends` | src/input.cpp:1088-1103 | lifting a finger ends a session that is not cancelled; the flags hold while another finger is tracked |
| `TouchSession.OutsideCancelSends` | src/input.cpp:1105-1115 | a cancel from outside calls nobody, clears the flags and forgets the fingers |
| `TouchSession.TouchTells` | src/input.cpp:1024-1115 | the recognizer is made to start with the number of fingers, to cancel, to update or to end, by which event and in which state of the flags |
| `TouchSession.SessionTravels` | src/input.cpp:1068-1086 | from the press that starts a session, while tracked fingers move over one output, the recognizer's distance is the sum over the fingers of their whole ways, on top of what a hanging session left |
| `TouchSession.TogetherTravels` | src/input.cpp:1068-1086 | if all fingers move by the same way during a session, the recognizer's distance grows by five times that way in millimetres, however many fingers there are |
| `TouchSession.UpdateIsMovementIff` | src/input.cpp:1078-1082 | the update sent for a motion is the finger's movement, wherever it goes, exactly if the finger is tracked or the output has no extent |
| `TouchSession.UntrackedFingerJumps` | src/input.cpp:1024-1103 | after a fourth finger has cancelled a session and the first three are lifted and put down again, the fourth one's next motion is sent as its whole position |
| `TouchSession.ReactionFlags` | src/input.cpp:1024-1103 | which calls can come in which states of the flags; a start needs three tracked fingers |
| `TouchSession.SessionAgreesIff` | src/input.cpp:1024-1115 | the session is open exactly while a gesture is taken and not cancelled, and no start, update or end has ever come out of turn, if and only if no outside cancel has hit an open session |
| `TouchSession.OpenAgreesIff` | src/input.cpp:1024-1115 | the recognizer has a session exactly while the filter holds one, if and only if no outside cancel has hit an open session since the last start, end or cancel |
| `TouchSession.SessionCanBeAbandoned` | src/input.cpp:1105-1115 | from any untouched state, any three fingers and an outside cancel abandon a session |
| `TouchSession.LiftingLastFingerClears` | src/input.cpp:1088-1103 | lifting the last tracked finger clears both flags in every run |
| `TouchSession.TouchscreenAlwaysBracketed` | src/globalshortcuts.cpp:289-324 | on the touchscreen the signal protocol and the axis rule hold in every run, outside cancels included |
| `TouchSession.ClosedMeansIdle` | src/globalshortcuts.cpp:307-324 | while the recognizer has no session no touchscreen gesture is active and no distance is kept |
| `TouchSession.ActiveOnlyInSession` | src/input.cpp:1024-1103 | unless a session is left hanging, gestures are active only while the filter holds one, and none is once all fingers are lifted |
| `GlobalShortcutFiltering.GlobalShortcutFilter.TouchDown` | src/input.cpp:1024-1066 | flags, points and the call on the recognizer as specified; its own synthetic cancel changes nothing |
| `GlobalShortcutFiltering.GlobalShortcutFilter.TouchMotion` | src/input.cpp:1068-1086 | an update is sent only while a gesture is taken and not cancelled |
| `GlobalShortcutFiltering.GlobalShortcutFilter.TouchUp` | src/input.cpp:1088-1103 | ends an open session and clears the flags with the last finger |
| `GlobalShortcutFiltering.GlobalShortcutFilter.TouchCancel` | src/input.cpp:1105-1115 | resets the filter unless it issued the cancel itself |
| `FocusChains.AlwaysChained` | src/focuschain.cpp:16-165 | in every run no chain holds a window twice and each window of a desktop's chain is in the MRU chain |
| `FocusChains.StepChained` | src/focuschain.cpp:16-165 | every operation keeps that |
| `FocusChains.StepRearranges` | src/focuschain.cpp:62-165 | an operation about a window leaves the order of all others alone in every chain |
| `FocusChains.UpdateLists` | src/focuschain.cpp:62-104 | right after its update a window is in a known desktop's chain exactly if it wants tab focus and is on that desktop, in the MRU chain exactly if it wants tab focus |
| `FocusChains.UpdateKeepsActiveFirst` | src/focuschain.cpp:117-129 | a plain update of another window never displaces the active one from the most recent place |
| `FocusChains.MakeFirstPlaces` | src/focuschain.cpp:212-230 | made first, a window is the most recent, or, minimized with the option on, next above the most recent other minimized one |
| `FocusChains.PlainUpdatePlaces` | src/focuschain.cpp:117-129 | a listed window stays, a new one comes directly behind the active one if that is first, else first |
| `FocusChains.PlainUpdateAsDocumentedIff` | src/focuschain.h:62-67 | the documented placement holds exactly for listed windows that have it already and for new ones that are active or find the active window first |
| `FocusChains.MoveAfterPlaces` | src/focuschain.cpp:148-165 | the window ends up once, directly behind the reference or the most recent window of the reference's application; the chain gains nothing else |
| `FocusChains.WalkVisitsAllOnce` | src/focuschain.cpp:175-188 | from any window of any reachable MRU chain the walk visits each window once before it is back |
| `FocusListing.MruLists` | src/focuschain.cpp:62-146 | in every run the MRU chain lists exactly the windows that wanted tab focus at their last update or were moved behind listed ones, not removed since |
| `FocusListing.DesktopLists` | src/focuschain.cpp:26-146 | and a desktop's chain exactly those that were also on the desktop, since the desktop was last added |
| `FocusListing.DesktopsArePresent` | src/focuschain.cpp:26-37 | desktops have chains from their adding to their removal; the active window and the current desktop are the last ones set, a removed desktop is not current |
| `FocusListing.MakeLastPlaces` | src/focuschain.cpp:232-236 | made last, a window is the least recent one |
| `FocusListing.AppIs` | src/focuschain.cpp:148-165 | the application of a reference is what the reference belongs to it with |
| `FocusListing.WalkFromOutside` | src/focuschain.cpp:175-188 | from a window that is not listed the walk goes to the least recent one and on as a tour |
| `FocusListing.WalkGoesBack` | src/focuschain.cpp:175-188 | from a listed one to the next less recent, and from the least recent to the most recent |
| `FocusHistory.MruRecordsHistory` | src/focuschain.cpp:62-165 | in every run the windows last made first are all in the MRU chain, in the order of those uses, whatever was inserted, moved, made last or removed among them |
| `FocusHistory.DesktopRecordsHistory` | src/focuschain.cpp:62-165 | the same for the chain of every desktop and the uses on it, a window on all desktops being used on the current one only |
| `FocusHistory.MruIsHistory` | src/focuschain.cpp:212-230 | with the option off and windows entering by activation, the MRU chain is the activation history with only the last use of each live window kept |
| `FocusSeparation.MakeFirstParts` | src/focuschain.cpp:212-230 | if all other windows are parted by minimized state, so is the whole chain, with the window the most recent of its class |
| `FocusSeparation.UpdatePartsIff` | src/focuschain.cpp:106-129 | when exactly an update of any kind, of a listed or a new window, leaves a chain parted |
| `FocusSeparation.MovePartsIff` | src/focuschain.cpp:148-165 | when exactly a move leaves a chain parted |
| `FocusSeparation.StepPartsDesktopIff` | src/focuschain.cpp:62-146 | any operation that finds no other window changed leaves the chain of any desktop parted exactly if it puts its window there on the right side of the others |
| `FocusSeparation.MruPartedIff` | src/window.cpp:1458-1493 | over runs of operations and of untold changes of windows' minimized states: the MRU chain is parted at every moment if and only if every operation put its window on the right side and every window that changed untold stood on the right side by then |
| `FocusSeparation.DesktopsPartedIff` | src/focuschain.cpp:62-165 | the same for the chains of all desktops |
| `FocusSeparation.UnminimizingLosesSeparation` | src/window.cpp:1478-1493 | in any run, unminimizing a window that stands before another minimized one leaves it there and loses the separation |
| `FocusSeparation.BothMinimized` | src/window.cpp:1458-1471 | any two windows minimized one after the other from the start make such a run |
| `FocusSeparation.SeparationCanBeLost` | src/focuschain.cpp:70-87 | for any two windows and desktops a run that re-inserts on every change, after which the other desktop's chain is not parted |
| `FocusSeparation.MruStaysParted` | src/focuschain.cpp:212-230 | over all runs that re-insert a window when it is minimized, only windows unminimized since they were last made first stand before minimized ones in the MRU chain; it is parted if there are none |
| `FocusSeparation.DesktopsStayParted` | src/focuschain.cpp:62-100 | the same for all desktops' chains while no window is on all desktops and windows are only made first, with no plain updates |
| `FocusChainManagement.FocusChain.RemoveWindow` | src/focuschain.cpp:16-24 | the window leaves every chain |
| `FocusChainManagement.FocusChain.AddVirtualDesktop` | src/focuschain.cpp:26-29 | the desktop gets an empty chain, also if it had one |
| `FocusChainManagement.FocusChain.RemoveVirtualDesktop` | src/focuschain.cpp:31-37 | its chain goes and it is no longer the current desktop |
| `FocusChainManagement.FocusChain.SetActiveWindow` | src/focuschain.h:219-222 | only the active window changes |
| `FocusChainManagement.FocusChain.SetCurrentDesktop` | src/focuschain.h:224-227 | only the current desktop changes |
| `FocusChainManagement.FocusChain.UpdateChains` | src/focuschain.cpp:62-104 | the loop over desktops, in any order, gives every chain its specified update |
| `FocusChainManagement.FocusChain.MakeFirstInChain` | src/focuschain.cpp:212-230 | the scan for the first minimized window inserts at the specified place |
| `FocusChainManagement.FocusChain.InsertWindowIntoChain` | src/focuschain.cpp:117-129 | the specified insertion |
| `FocusChainManagement.FocusChain.MoveAfterWindow` | src/focuschain.cpp:131-146 | every chain of the window's desktops, and the MRU chain, gets the specified move |
| `FocusChainManagement.FocusChain.MoveAfterWindowInChain` | src/focuschain.cpp:148-165 | the scan for the reference's application inserts at the specified place |
| `FocusChainManagement.FocusChain.NextMostRecentlyUsed` | src/focuschain.cpp:175-188 | the step of the walk, none on an empty chain |
| `FocusChainManagement.FocusChain.NextForDesktop` | src/focuschain.cpp:196-210 | the most recent usable window other than the reference, or none if there is none |
| `EffectChain.OncePerEffect` | src/effects.cpp:404-459 | if every effect hands on once, a pass visits the remaining effects in order and then the scene once |
| `EffectChain.FrameTrace` | src/scene/workspacescene.cpp:225-336 | the events of a whole frame: the preparing passes, effects and scene for the screen, then for each painted window and its drawing, and the closing passes |
| `EffectChain.DrawsMultiply` | src/effects.cpp:404-479 | if effects hand on any number of times, a window is drawn in a frame as often as it is to be painted times the product of these numbers over all effects and the screen, window and draw passes |
| `EffectChain.InsertInOrder` | src/effects.cpp:136-140 | inserting the newest effect keeps lower chain positions first and, among equal ones, newer effects first |
| `EffectChain.AlwaysInOrder` | src/effects.cpp:1591-1610 | so the order holds however effects are loaded and unloaded |
| `EffectChain.OrderChanges` | src/effects.cpp:136-140 | loading adds exactly the new effect |
| `EffectChain.UnloadTakesFirst` | src/effects.cpp:1591-1610 | unloading takes out exactly the first effect of the name |
| `EffectChain.PassVisitsActive` | src/effects.cpp:497-509 | however effects were loaded and unloaded, a pass of a frame visits exactly the loaded active effects, each once, in the order of the chain |
| `EffectsHandling.EffectsHandler.EffectsChanged` | src/effects.cpp:1711-1725 | the loaded effects are the ordered ones, none is active, all iterators are at the begin |
| `EffectsHandling.EffectsHandler.EffectLoaded` | src/effects.cpp:136-140 | the effect is inserted into the order once |
| `EffectsHandling.EffectsHandler.UnloadEffect` | src/effects.cpp:1591-1610 | the first effect of that name is withdrawn from all properties and goes, nothing happens if there is none |
| `EffectsHandling.EffectsHandler.UnloadAllEffects` | src/effects.cpp:290-300 | the loaded effects are withdrawn one after the other, each with a complete listing, the lists are emptied and so is the load queue |
| `EffectsHandling.EffectsHandler.StartPaint` | src/effects.cpp:497-509 | exactly the loaded effects that are active, in their order |
| `EffectsHandling.EffectsHandler.Enter` | src/effects.cpp:404-479 | for all effects that make finitely many calls, of any stage, and all scenes that call later stages only, the recursion ends, all three iterators are restored, and the events are the specified ones |
| `SupportProperties.AlwaysSafe` | src/composite.cpp:836-861 | in every run, failed registrations and restarts included, a managed property is on the root window and not up for deletion |
| `SupportProperties.StepSafe` | src/effects.cpp:919-972 | every step keeps that |
| `SupportProperties.AgreesIffNoRefusal` | src/effects.cpp:919-972 | at every moment of a run (managed exactly if held, by effects alive and named once; counts exact; the root window carries what is held or waits, never both; waiting entries have a running timer) if and only if the X server refused no first announcement |
| `SupportProperties.RefusalSpoilsTables` | src/effects.cpp:930-950 | a run of four steps after which they do not agree |
| `SupportProperties.AnnounceAgreesIff` | src/effects.cpp:930-950 | announcing keeps this exactly if the property was known or an atom is handed out |
| `SupportProperties.NoEffectsNoEntries` | src/effects.cpp:290-300 | when all effects are destroyed the tables are empty |
| `SupportProperties.HoldsWhatItClaims` | src/effects.cpp:1612-1632 | in every run an effect holds exactly what it announced and neither withdrew nor lost by unloading or a stop |
| `SupportProperties.FiringCleans` | src/composite.cpp:847-861 | once the timer fires outside a restart the root window carries exactly the held properties |
| `SupportProperties.FiringWaits` | src/composite.cpp:847-855 | while the compositor starts or stops the timer deletes nothing and is started again |
| `SupportProperties.RootChanges` | src/composite.cpp:847-861 | the root window gains a property only by a first announcement and loses one only to the timer, outside a restart, if it waits |
| `SupportPropertyManagement.Compositor.KeepSupportProperty` | src/composite.cpp:836-839 | the atom is no longer up for deletion |
| `SupportPropertyManagement.Compositor.RemoveSupportProperty` | src/composite.cpp:841-845 | the atom waits and the timer runs |
| `SupportPropertyManagement.Compositor.DeleteUnusedSupportProperties` | src/composite.cpp:847-861 | deletes all that waits, or starts the timer again during a restart |
| `SupportPropertyManagement.PropertyHandler.CreateEffect` | src/effectloader.cpp:348-359 | an effect counts as alive from its construction on, before it is reported as loaded |
| `SupportPropertyManagement.PropertyHandler.RegisterPropertyType` | src/effects.cpp:919-928 | counts up, or down and away at zero |
| `SupportPropertyManagement.PropertyHandler.AnnounceSupportProperty` | src/effects.cpp:930-950 | the new tables and the atom returned |
| `SupportPropertyManagement.PropertyHandler.RemoveSupportProperty` | src/effects.cpp:952-972 | the new tables; the atom waits only when the last holder has gone |
| `SupportPropertyManagement.PropertyHandler.DestroyEffect` | src/effects.cpp:1612-1632 | withdraws the effect from all properties, in whatever order they are listed |
| `EffectLoading.AlwaysAwake` | src/effectloader.h:234-265 | in every run the flag is set exactly while entries wait, and then a call is on its way, stale calls after a clear included |
| `EffectLoading.FewCallsPosted` | src/effectloader.h:234-265 | at most one call is posted while entries wait, and one stale one for each clear |
| `EffectLoading.PostedCallsStay` | src/effectloader.h:234-265 | every posted call is delivered or still on its way, also one posted before a clear |
| `EffectLoading.DrainLoadsAll` | src/effectloader.h:246-255 | draining loads all waiting entries in order and comes to rest |
| `EffectLoading.DeliverAccounted` | src/effectloader.h:246-255 | a delivery loads at most one effect and loses none |
| `EffectLoading.EveryEntryAccounted` | src/effectloader.h:234-255 | loaded and waiting entries are together the enqueued ones that no clear dropped, in order |
| `EffectLoading.DrainedRunLoadsSurvivors` | src/effectloader.h:234-265 | a drained event loop has loaded exactly those |
| `EffectLoading.EffectLoadQueue.EnqueueEntry` | src/effectloader.h:234-238 | appends and posts a call if none is scheduled |
| `EffectLoading.EffectLoadQueue.ClearQueue` | src/effectloader.h:239-243 | empties the queue; posted calls stay |
| `EffectLoading.EffectLoadQueue.DequeueEntry` | src/effectloader.h:246-255 | loads the oldest entry and schedules the next |
| `EffectLoading.EffectLoadQueue.ProcessEvents` | src/effectloader.h:246-265 | working off all posted calls loads the whole queue in order |
| `DebugConsole.ParentOfIndex` | src/debug_console.cpp:1068-1138 | the parent of any index below any reachable index is that index, at all levels, within the bounds |
| `DebugConsole.CategoriesShow` | src/debug_console.cpp:986-1024 | the root shows X11 and unmanaged windows, on Wayland also Wayland and internal ones, in this order, each with its windows below |
| `DebugConsole.LookupFinds` | src/debug_console.cpp:1285-1313 | the lookup in a category finds the window of the row in that category's list |
| `DebugConsole.WindowRoundTripIff` | src/debug_console.cpp:1044-1054 | a window's parent is its category exactly for the first 10000 |
| `DebugConsole.PropertyRoundTripIff` | src/debug_console.cpp:1056-1066 | an index below a window leads back to it exactly if the window is among the first 10000 and has such a property whose row, from one, does not vanish in 16 bits |
| `DebugConsole.RowsHaveIndices` | src/debug_console.cpp:1007-1042 | below any index there are valid indices for exactly the counted rows |
| `DebugConsole.IdsDiffer` | src/debug_console.cpp:901-907 | ids of different windows and of different property rows never collide |
| `DebugConsole.PropertyLookup` | src/debug_console.cpp:1285-1313 | for a property's index exactly one of the four lookups succeeds, with its window |
| `DebugConsole.BelowProperty` | src/debug_console.cpp:1026-1029 | properties have no children |
| `DebugConsole.DeviceRoundTripIff` | src/debug_console.cpp:1542-1581 | a device property leads back to the device exactly from the first column and while its row does not vanish in 16 bits |
| `DebugConsole.DeviceRowsHaveIndices` | src/debug_console.cpp:1542-1560 | the root has indices for exactly the devices, a device for exactly its properties, a property none |
| `DebugConsole.DebugConsoleModel.Add` | src/debug_console.cpp:909-915 | the row told to the view is where the index leads to the new window, and back to the category for the first 10000 |
| `DebugConsole.DebugConsoleModel.Remove` | src/debug_console.cpp:917-927 | the row told is the window's, and nothing else goes |
| `IdleInhibition.AlwaysAgrees` | src/idle_inhibition.cpp:34-95 | in every run the inhibitors are exactly the windows with a last verdict of visible and inhibiting, and each detector is inhibited exactly if there is one, has a stopped timer then, and alternates idle and resumed |
| `IdleInhibition.IdleIffRanOut` | src/idledetector.cpp:50-72 | in every run a detector is idle exactly if its timer ran out since the last activity not made under inhibition |
| `IdleInhibition.TimerIffRuns` | src/idledetector.cpp:18-56 | in every run its timer runs exactly if it was started, by creation, activity or the end of an inhibition, and neither ran out nor was stopped since |
| `IdleInhibition.ActivityResumes` | src/idledetector.cpp:50-72 | activity with no window inhibiting leaves no detector idle and tells exactly those that were that they have resumed |
| `IdleInhibition.TimeoutIdles` | src/idledetector.cpp:58-64 | a timeout leaves its detector idle, tells it once, and concerns no other |
| `IdleInhibition.InhibitedIsSilent` | src/idledetector.cpp:37-56 | while any window inhibits, no detector emits anything |
| `IdleInhibition.IdleDetector.SetInhibitedTo` | src/idledetector.cpp:37-48 | flag and timer change together, nothing is emitted |
| `IdleInhibition.IdleDetector.NoteActivity` | src/idledetector.cpp:50-56 | restarts the timer and resumes unless inhibited |
| `IdleInhibition.IdleDetector.TimedOut` | src/idledetector.cpp:58-64 | becomes idle and says so once |
| `IdleInhibition.InputRedirection.AddIdleDetector` | src/input.cpp:3562-3567 | a new detector starts inhibited exactly if there are inhibitors |
| `IdleInhibition.InputRedirection.SimulateUserActivity` | src/input.cpp:3555-3560 | every detector notes the activity, each once |
| `IdleInhibition.InputRedirection.AddIdleInhibitor` | src/input.cpp:3579-3587 | a new inhibitor inhibits all detectors |
| `IdleInhibition.InputRedirection.RemoveIdleInhibitor` | src/input.cpp:3589-3596 | the last inhibitor to go releases all detectors |
| `IdleInhibition.InputRedirection.Update` | src/idle_inhibition.cpp:69-83 | adds or removes the window by its visibility and wish, internal windows aside |

## Left out

- The actions behind gesture signals (queued triggers, progress callbacks) and keyboard shortcuts through KGlobalAccel: external services.
- The touchpad half of the input filter: it forwards events with three or more fingers unchanged.
- Output geometry and float rounding in the touch filter: the factors are parameters.
- TouchSession.SessionTravels: a sum of whole ways only for tracked fingers on one output; for each single motion `UpdateIsMovementIff` says what is sent.
- Signal handlers that re-enter the recognizer, the registry or the effect list while it is at work.
- Losing and regaining the X connection, which re-registers all properties, and the deletion timer's wait for a connection.
- Effects that are loaded or unloaded during a painting pass; what effects and scene paint.
- Full-screen mode, keyboard grab and mouse interception, which end with the effect that is destroyed; other loaders than the queued one.
- Effect configuration, discovery and the loaders behind the load queue; loading does not enqueue.
- `getForActivation`: the same scan as `NextForDesktop` with other window flags.
- Begin and end notifications of the item models beyond the reported row, the data shown, and the surface tree model.
- Negative rows and columns in model indices, which views do not ask for.
- `slotDesktopChanged` is not a step of its own: it is a sequence of window updates.
- Signal connections of idle inhibition to windows: an update or a close is a step of the run.
