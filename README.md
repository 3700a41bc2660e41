# MagicHand gesture pipeline — a Dafny model

MagicHand turns webcam hand tracking into on-screen effects. Each video frame goes through four stages:

1. Each tracked hand's per-finger states (open, closed, unknown) and a pinch estimate are scored against the registered **pose** definitions.
2. The pose of the last hand that classifies becomes the frame's *active pose*. It is logged in a transition-only, time-pruned **pose history**.
3. A backward, anchored matcher looks for registered **gesture** sequences in that history. Each gesture has its own cooldown.
4. A triggered gesture starts its **technique** in the effect scheduler (`FXEngine`). The scheduler applies:
   - a global 1500 ms start cooldown, from which the aura technique is exempt;
   - restart semantics;
   - an update pass on every animation frame.

The camera view adds two rules of its own. The aura does not start within 2000 ms of a complex trigger. It is stopped on a frame whose active pose is not the open hand and in which the aura trigger gesture did not fire.

The model has one module per core file, plus two shared modules (each `.dfy` file holds one module):

- `Types`: the value types.
- `OrderedMaps`: an insertion-ordered map with JavaScript `Map` semantics. `set` on a known key overwrites in place; `delete` removes the key.
- `Recognition`: `PoseRecognizer` and `SequenceRecognizer`, as classes whose fields the methods update.
  - The running-maximum loop, the nested matcher loops and the recognize loop are `for`/`while` loops.
  - Each loop is proved against a specification function: `Classify`, `SequenceMatches` and `FirstTriggered`.
  - Lemmas state what those functions mean: earliest maximum, soundness of a match, the failure rule, and the first gesture that fires.
- `Engine`: `FXEngine` as a class with the two ordered maps and the start-time fields.
  - Technique hooks are events in a ghost `trace`.
  - A technique's state is a `StateBlob` object, so `fresh` shows that a start received new state.
  - `Valid` is the invariant that both maps have the same keys in the same order and that no two techniques share a blob.
- `Catalog`: the `Registry` class with its three ordered maps.
- `SlashPoses`, `AuraPoses`: the pose scorers, as pure functions. Each is proved to reach its threshold exactly for the intended finger configuration.
- `Plugins`: the plugin constants (poses, gestures, techniques) and their registration.
- `CameraView`: the frame loop as the class `FrameLoop`.
  - It covers gesture loading (stable sort, longest first), the active-pose selection, and the `currentTime` guard.
  - It covers the technique lookup, the aura priority window, the start, and the aura auto-stop.
  - The engine update runs on every ready frame.
- `Scenarios`: concrete runs over the shipped constants.

Times and scores are `real`. JavaScript truthiness is modelled explicitly:
- an empty pose or gesture id counts as null;
- a recorded trigger time of 0 counts as no trigger time.

## Behaviour worth knowing

The following hold of the code as written. The model follows the code.

- `FXEngine.lastStartTime` starts at 0. A fresh engine therefore refuses every non-aura start before time 1500 (`Scenarios.ColdStart`). A start at time 0 followed by another at 800 has both refused, not only the second.
- A restart of an active non-aura technique is itself subject to the global cooldown. A restart within 1500 ms of the last non-aura start is refused and nothing is stopped.
- `_lastComplexTime` starts at 0, and the `if (!x) x = 0` reset never changes it. The aura is therefore held back for every frame before time 2000.
- The fist scorer computes a five-finger `closedCount` and never uses it. The score reads only index, middle, ring and pinky.
- The aura technique as defined names `pose_open_hand` as its gesture. The aura plugin registers a copy linked to `gesture_aura_trigger`, and the model's catalog holds that copy.
- A fully open hand with pinch estimate 1.0 scores 1.0 for both the pinch pose and the open-hand pose. The pinch pose is evaluated first and wins the tie (`Scenarios.TieGoesToEarlierPose`).
- The aura outlives the open hand. The aura trigger is a single open-hand step with a 1000 ms gap and no cooldown. For up to 1000 ms after the open-hand entry it keeps firing, even on frames whose active pose is a fist. On those frames the stop rule does not apply, and the aura is started again (`Scenarios.AuraLingers`).
- A hook that throws is not caught. `stopTechnique` calls the stop hook before it deletes the id (`src/core/fx/engine.ts:62-64`), so a throwing stop hook leaves the id in both maps. A throwing start hook (`src/core/fx/engine.ts:48`) leaves the id active, with neither the start time nor the name recorded.
- The `|| {}` fallbacks for a missing state in `stopTechnique` and `update` are unreachable: the two maps always have the same keys.

## Model

| member | source | states |
|---|---|---|
| OrderedMaps.PutSpec | src/core/registry/index.ts:8-18 | `set(k, v)` keeps keys unique. Afterwards `k` maps to `v` and every other key maps as before. A known key keeps its position; a new key is appended. |
| OrderedMaps.ValuesAfterPut | src/core/registry/index.ts:20-30 | `values()` after `set`: the value at the key's position is replaced, or the new value is appended last. |
| OrderedMaps.DeleteSpec | src/core/fx/engine.ts:63-64 | `delete(k)` removes exactly key `k` and keeps keys unique. Every remaining entry was already in the map. |
| OrderedMaps.DeleteMissing | src/core/fx/engine.ts:58-60 | Deleting an absent key leaves the map as it was. |
| OrderedMaps.DeleteThenPut | src/core/fx/engine.ts:39-45 | Deleting and then setting a key puts it last in iteration order. |
| OrderedMaps.SizeIsDistinctKeys | src/core/registry/index.ts:20-30 | A map's size is its number of distinct keys. |
| OrderedMaps.LookupAt | src/core/fx/engine.ts:71-73 | With unique keys, looking up the `i`-th entry's key returns that entry's value. |
| Recognition.ScanWinner | src/core/recognition/index.ts:12-21 | The loop's running best is the earliest definition with the maximum qualifying score (above its threshold and above 0). It stays null with score 0 exactly when no definition qualifies. |
| Recognition.ClassifySpec | src/core/recognition/index.ts:11-24 | `recognize` returns the winner's id and score. It returns null exactly when nothing qualifies or the winner's id is the falsy empty string. |
| Recognition.ClassifyNoneIff | src/core/recognition/index.ts:11-24 | With non-empty ids, `recognize` returns null iff no definition scores above both its threshold and 0. |
| Recognition.PoseRecognizer.RegisterPose | src/core/recognition/index.ts:7-9 | Appends the definition to the list. |
| Recognition.PoseRecognizer.Recognize | src/core/recognition/index.ts:11-24 | The running-maximum loop computes the classification, and the definition list is unchanged. |
| Recognition.PruneMembers | src/core/recognition/index.ts:52 | Pruning keeps exactly the entries younger than 5000 ms, so an entry exactly 5000 ms old is dropped. |
| Recognition.PruneSuffix | src/core/recognition/index.ts:52 | On a time-ordered log, pruning drops a prefix. |
| Recognition.RecordedFalsy | src/core/recognition/index.ts:43 | `update` with a null or empty pose leaves the history unchanged. |
| Recognition.RecordedSpec | src/core/recognition/index.ts:48-53 | `update` appends iff the pose is truthy and the log is empty or ends in a different pose. After an append, `(now, pose)` is last and exactly the young entries remain; otherwise nothing changes. |
| Recognition.RecordedIdempotent | src/core/recognition/index.ts:48-50 | Repeating the same pose, at any later time, changes nothing. |
| Recognition.RecordedWellFormed | src/core/recognition/index.ts:42-55 | With non-decreasing times, `update` keeps the log time-ordered, with no two neighbours sharing a pose and no empty pose id. |
| Recognition.SequenceRecognizer.RegisterGesture | src/core/recognition/index.ts:38-40 | Appends the gesture; the history and the trigger times are untouched. |
| Recognition.SequenceRecognizer.Update | src/core/recognition/index.ts:42-55 | The new history is the recorded transition; the gestures and the trigger times are unchanged. |
| Recognition.FindStepFound | src/core/recognition/index.ts:78-108 | An entry the inner scan returns has the step's pose within the maximum gap. Every entry it stepped over was within the gap plus the 500 ms buffer, but was not such a candidate. |
| Recognition.FindStepComplete | src/core/recognition/index.ts:78-108 | The inner scan finds every candidate it can reach without crossing an entry outside the window. |
| Recognition.FindStepStops | src/core/recognition/index.ts:84-90 | The failure rule: the scan fails at the first entry older than the gap plus the buffer, if no later candidate comes before it. |
| Recognition.MatchStepsSound | src/core/recognition/index.ts:73-116 | Matching the first `k` steps yields strictly increasing indices that carry the steps' poses. Each gap to the next step is within that step's maximum, and each index is at most the starting index. |
| Recognition.MatchSound | src/core/recognition/index.ts:68-116 | Soundness of a match: an accepted gesture's steps occur in the log in order. Every gap is within its step's maximum, and the last step is within its maximum of `now`. |
| Recognition.MatchSequence | src/core/recognition/index.ts:68-116 | The nested `while` loops decide the recursive match. An empty sequence matches. |
| Recognition.CooldownExemptions | src/core/recognition/index.ts:61-63 | A missing or zero trigger time never blocks. A cooldown of 0 never blocks once `now` is at or after the trigger time. |
| Recognition.FirstTriggeredSpec | src/core/recognition/index.ts:59-125 | `recognize` selects the first registered gesture that is out of its cooldown and matches. It selects none iff no gesture does. |
| Recognition.SequenceRecognizer.Recognize | src/core/recognition/index.ts:57-126 | Returns the first gesture that fires and records `now` as its trigger time. The history is never changed. When nothing fires, it returns null and no state changes. |
| Engine.UpdateHooksAt | src/core/fx/engine.ts:71-74 | Hook `i` of an update pass is the update hook of the `i`-th entry, with that entry's state. |
| Engine.ValidAfterDelete | src/core/fx/engine.ts:63-64 | Removing an id from both maps keeps them keyed alike, with distinct blobs. |
| Engine.ValidAfterAppend | src/core/fx/engine.ts:42-45 | Setting an absent id in both maps, with a blob no one else holds, keeps them keyed alike. |
| Engine.DeleteKeepsDistinct | src/core/fx/engine.ts:63-64 | Deleting from the state map keeps its blobs pairwise distinct. |
| Engine.FXEngine.constructor | src/core/fx/engine.ts:6-9 | An engine starts with empty maps, start time 0 and an empty name. |
| Engine.FXEngine.IsActive | src/core/fx/engine.ts:11-13 | An id is active iff it is listed by `getActiveTechniqueIds`, iff it has state. |
| Engine.FXEngine.CooldownRemaining | src/core/fx/engine.ts:16-19 | The remaining cooldown is never negative. It is 0 iff 1500 ms have passed since the last start, otherwise it is what is left of the 1500 ms, and, once `now` is at or after the last start, it never exceeds 1500 ms. |
| Engine.FXEngine.ActiveTechniqueIds | src/core/fx/engine.ts:27-29 | The active ids are distinct and in insertion order. They are exactly the keys of the state map, and each names its technique. |
| Engine.FXEngine.StartTechnique | src/core/fx/engine.ts:31-56 | The result is `Accepts`: the technique is the aura or 1500 ms have passed. The new state is `StartStep` of the old one. A refusal changes nothing. An accepted start stops the id first if it is active (one stop hook with the old state). It then puts the id last in both maps with a fresh state and runs one start hook with that state. A non-aura start records the time and name; the aura never does. |
| Engine.StartStepActive | src/core/fx/engine.ts:31-56 | After a `StartStep`, an accepted technique is active under its own id. A refused start changes nothing, and no other id's status changes. |
| Engine.StopStepInactive | src/core/fx/engine.ts:58-66 | After a `StopStep`, the id is inactive and no other id's status changes. Stopping an inactive id leaves the maps and the trace alone. |
| Engine.FXEngine.Install | src/core/fx/engine.ts:42-48 | For an inactive id: appends it to both maps with a fresh state, runs one start hook, and keeps the invariant. |
| Engine.FXEngine.StopTechnique | src/core/fx/engine.ts:58-66 | The new state is `StopStep` of the old one. An active id gets one stop hook with its state and is removed from both maps, and the start fields stay. Every other id's status is unchanged, and an inactive id is a no-op. |
| Engine.FXEngine.UpdatePassSpec | src/core/fx/engine.ts:68-75 | A pass first clears the surface. Then, for the `i`-th active id in `getActiveTechniqueIds` order, it calls that id's update hook with that id's own state. |
| Engine.FXEngine.Update | src/core/fx/engine.ts:68-75 | Appends one pass to the trace; the maps and the start fields are unchanged. |
| Engine.FXEngine.RunUpdateHooks | src/core/fx/engine.ts:71-74 | The `forEach` loop calls each active technique's update hook once, in order, with its state, and changes no map. |
| Catalog.Registry.constructor | src/core/registry/index.ts:3-6 | A registry starts with three empty maps. |
| Catalog.Registry.RegisterTechnique | src/core/registry/index.ts:8-10 | Afterwards the id maps to the technique, and every other id maps as before. A known id keeps its position; a new id goes last. Poses and gestures are untouched. |
| Catalog.Registry.RegisterPose | src/core/registry/index.ts:12-14 | As `RegisterTechnique`, for poses; techniques and gestures are untouched. |
| Catalog.Registry.RegisterGesture | src/core/registry/index.ts:16-18 | As `RegisterTechnique`, for gestures; techniques and poses are untouched. |
| Catalog.Registry.AllTechniques | src/core/registry/index.ts:20-22 | Lists one technique per distinct id, in key order. Each is what its id maps to. |
| Catalog.Registry.AllPoses | src/core/registry/index.ts:24-26 | Lists one pose per distinct id, in key order. Each is what its id maps to. |
| Catalog.Registry.AllGestures | src/core/registry/index.ts:28-30 | Lists one gesture per distinct id, in key order. Each is what its id maps to. |
| Catalog.KeyedAfterPut | src/core/registry/index.ts:8-10 | Registering a technique keeps every key naming its value's id, and keeps keys unique. |
| Catalog.PosesKeyedAfterPut | src/core/registry/index.ts:12-14 | The same for poses. |
| Catalog.GesturesKeyedAfterPut | src/core/registry/index.ts:16-18 | The same for gestures. |
| SlashPoses.FistScore | src/plugins/slash/poses.ts:7-25 | The fist score lies in {0, 0.25, 0.5, 0.75, 1}. It exceeds 0.75 iff index, middle, ring and pinky are all closed, and it is 0 iff none of them is. |
| SlashPoses.TwoFingersScore | src/plugins/slash/poses.ts:32-41 | The two-fingers score is a quarter in [0, 1]. It exceeds 0.75 iff index and middle are open and ring and pinky are closed. |
| SlashPoses.ThumbIgnored | src/plugins/slash/poses.ts:18-24 | Neither slash score depends on the thumb. |
| SlashPoses.FistExcludesTwoFingers | src/plugins/slash/poses.ts:19-35 | No hand qualifies as both a fist and two fingers. |
| AuraPoses.OpenHandScore | src/plugins/aura/poses.ts:7-18 | The open-hand score is 0 or 1. It is 1, and exceeds 0.95, iff all five fingers are open. |
| AuraPoses.NotOpenScoresZero | src/plugins/aura/poses.ts:9-18 | Any closed or unknown finger gives score 0. |
| Plugins.OpenHandExcludesFist | src/plugins/aura/poses.ts:9-18 | An open hand never qualifies as a fist. |
| Plugins.RegisterSlashPlugin | src/plugins/slash/index.ts:18-23 | Sets fist and two fingers, the slash gesture and the slash technique, in that order. |
| Plugins.RegisterFireballPlugin | src/plugins/fireball/index.ts:19-23 | Sets the pinch pose, the fireball gesture and the fireball technique. |
| Plugins.RegisterAuraPlugin | src/plugins/aura/index.ts:18-24 | Sets the open-hand pose, the aura trigger gesture, and the aura technique re-linked to that gesture. |
| Plugins.RegisterPlugins | src/components/CameraView.tsx:19-25 | Registering slash, fireball and aura into an empty registry gives a catalog: four poses (fist, two fingers, pinch, open hand), three gestures (slash, fireball, aura trigger) and three techniques, in that order. |
| CameraView.SortByLengthSpec | src/components/CameraView.tsx:49-51 | The load-time order is longest sequence first. It holds the same gestures, and gestures of equal length keep their catalog order (a stable sort). |
| CameraView.LastRecognizedSpec | src/components/CameraView.tsx:122-126 | The active pose is that of some hand after which every hand fails to classify. It is null iff every hand fails. |
| CameraView.SelectActivePose | src/components/CameraView.tsx:122-126 | The `forEach` over the hands computes that active pose. |
| CameraView.LoadPoses | src/components/CameraView.tsx:48 | Registers the poses in the given order. |
| CameraView.LoadGestures | src/components/CameraView.tsx:50-51 | Registers the gestures in the given order, leaving the history and the trigger times alone. |
| CameraView.FindIndex | src/components/CameraView.tsx:139 | `find` returns the first technique satisfying the predicate, or none iff none does. |
| CameraView.TechniqueFor | src/components/CameraView.tsx:139-140 | A gesture's technique is the first one in catalog order linked to it. There is none iff no technique is linked. |
| CameraView.AuraEntry | src/components/CameraView.tsx:181-182 | The aura lookup finds a technique with id `tech_aura`, or none iff the catalog has none. |
| CameraView.Launched | src/components/CameraView.tsx:136-151 | A frame tries a start only for a truthy triggered gesture with a linked technique. The only case held back is the aura within 2000 ms of the last complex trigger, and an aura start implies 2000 ms have passed. |
| CameraView.AuraStartSurvivesFrame | src/components/CameraView.tsx:136-193 | When every aura entry is linked to the aura trigger, a frame that starts the aura does not also stop it. |
| CameraView.FrameOutcome | src/components/CameraView.tsx:136-193 | After a `FrameStep`, the stop rule leaves the aura inactive. An accepted start leaves its technique active, unless it is the aura and the stop rule applies. Only an accepted non-aura start moves the start time, and no other technique's status changes. |
| CameraView.FrameLoop.constructor | src/components/CameraView.tsx:46-51 | Poses are loaded in catalog order and gestures longest-first. The history and trigger times start empty, and the engine has empty maps, start time 0 and an empty name; the video time is -1 and the complex time 0. |
| CameraView.FrameLoop.Sense | src/components/CameraView.tsx:122-134 | Selects the active pose and records it at `now`. It then reports the first gesture that fires at the same `now` and moves that gesture's trigger time to `now`; with none, the trigger times stay. |
| CameraView.FrameLoop.Launch | src/components/CameraView.tsx:136-169 | A non-aura attempt marks the complex time even if the engine refuses. The start succeeds iff a technique is launched and the engine accepts it. The engine goes through `LaunchStep`: unchanged without a launch, otherwise the full `StartStep` (maps, fresh state, hooks, start fields). |
| CameraView.FrameLoop.AutoStop | src/components/CameraView.tsx:179-193 | When the pose is not the open hand, the aura trigger did not fire and an aura is registered, the engine goes through the full `StopStep` for the aura (a no-op if inactive). Otherwise the engine is unchanged. |
| CameraView.FrameLoop.Act | src/components/CameraView.tsx:136-193 | Start, then auto-stop: the complex time as `Launch` states it, the full `LaunchStep` into the engine state `mid` between the halves, and the full `AutoStopStep` after it. On a start, the state blob in `mid` is fresh. |
| CameraView.FrameLoop.ProcessFrame | src/components/CameraView.tsx:119-193 | One new video frame is a `FrameStep`: the pose recorded, the reported gesture and its trigger time, the launched technique and the complex time, and both engine halves. It also states the active pose, the reported gesture and whether the engine accepted the start, and on a start the new state blob is fresh. |
| CameraView.FrameLoop.Detect | src/components/CameraView.tsx:91-193 | Recognition runs only for a new video time. A repeated video time leaves the recognizer, the engine and the complex time unchanged. A new one is a full `FrameStep`, and when its start is accepted the new state blob is fresh. |
| CameraView.FrameLoop.Render | src/components/CameraView.tsx:200-209 | The engine's state is unchanged except that its trace gains one update pass. |
| CameraView.FrameLoop.ReadyFrame | src/components/CameraView.tsx:86-209 | A ready frame reaches `detected`. For a repeated video time that is the old state. For a new one it is a full `FrameStep`, and an accepted start or restart gets a fresh state blob. The frame then ends with the update pass on `detected`'s trace, with the maps unchanged. |
| CameraView.FrameLoop.Tick | src/components/CameraView.tsx:81-209 | A frame that is not ready changes nothing. A ready frame does what `ReadyFrame` states. |
| Scenarios.LoadOrder | src/components/CameraView.tsx:49-51 | The catalog's gestures are already longest-first, so loading keeps slash, fireball, aura trigger. |
| Scenarios.SlashAfterHalfSecond | src/plugins/slash/index.ts:6-16 | Fist at `t` and two fingers at `t + 500` match the slash at `t + 500`. |
| Scenarios.SlashTooSlow | src/core/recognition/index.ts:84-90 | Fist at 0 and two fingers at 2600 do not match the slash: the gap exceeds 2000 plus the 500 buffer. |
| Scenarios.FireballBeforeAura | src/components/CameraView.tsx:49-51 | Pinch at 1000 and open hand at 1500 trigger the fireball, not the aura trigger, even though the aura sequence matches too. |
| Scenarios.SlashCoolingDown | src/core/recognition/index.ts:61-63 | A slash triggered at 3000 is cooling down at 4000. The aura trigger, with no cooldown, is not. |
| Scenarios.AuraPriority | src/components/CameraView.tsx:142-192 | The aura is held back at 1500 and within 2000 ms of a complex trigger, and starts after that window. A slash always launches and marks the time. The stop rule applies only when the hand is not open and the aura trigger did not fire. |
| Scenarios.AuraLingers | src/components/CameraView.tsx:179-192 | An open hand at 3000 then a fist at 3300: at 3400 the aura trigger still fires, the stop rule does not apply, and the aura is launched. |
| Scenarios.FistClassified | src/plugins/slash/poses.ts:3-26 | A closed hand with an open thumb classifies as a fist with score 1. |
| Scenarios.TieGoesToEarlierPose | src/core/recognition/index.ts:17 | A fully open hand with pinch 1.0 classifies as the pinch pose, registered before the open hand. |
| Scenarios.ColdStart | src/core/fx/engine.ts:8-37 | On a fresh engine at time 1000 a slash start is refused and an aura start at the same time is accepted. |
| Scenarios.GlobalCooldown | src/core/fx/engine.ts:35-37 | Non-aura starts 800 ms apart: the second is refused. 1600 ms apart: it is accepted. |
| Scenarios.TwoActive | src/core/fx/engine.ts:42-55 | Slash at 2000 and fireball at 3600 are both accepted and active in that order. |
| Scenarios.RestartMovesLast | src/core/fx/engine.ts:39-45 | Restarting the slash moves it behind the fireball. |

## Left out

- Rendering: the technique hooks' drawing bodies, clearing the canvas, and canvas resizing. Hooks and clearing are abstract events in a ghost trace. The context fields `video`, `overlay2d`, `frame` and `features` and the `payload` argument are not modelled.
- Feature extraction (`src/core/features/index.ts`) is not part of this model; finger states and the pinch estimate are inputs. The pinch pose scores its input, which the model takes as given.
- Hand detection, the camera and model loading: the hands of a frame are an input. On a new video time, the detector's output and the fallback to the store's last frame when detection throws are not modelled separately.
- The video readiness check (`!video || !canvas || video.readyState < 2`) is the boolean `ready`. The video time and the animation timestamp are parameters.
- React state and the store, including `setActivePose`; FPS statistics; debug drawing and logging; `requestAnimationFrame`; and the `setTimeout` reset of `_lastActiveTech`.
- `minHoldMs`, `minConfidence`, `maxDurationMs` and `requiresHands` are never read by the matcher and are not modelled.
- The registry, recognizers and engine are objects owned by the frame loop. The module-level singleton registry is the `catalog` given to the constructor.
- Engine.FXEngine.LastStartedName: a plain getter with no contract. What it returns is fixed by `StartTechnique`'s contract on `lastStartedName`.
- Lifecycle hooks are modelled as returning normally. The partial update left by a throwing hook is not modelled.
- JavaScript numbers are modelled as unbounded reals: no floating-point rounding.
