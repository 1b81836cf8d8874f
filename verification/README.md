# GDevelop editor decision logic in Dafny

A model of four small pieces of decision logic from the GDevelop game
editor and its C++ runtime, with their properties proved:

- **Marketing plans** (`MarketingPlans`, `marketing_plans.dfy`): which of a
  game's active featurings belong to a marketing plan, whether the plan is
  active, its price in credits, the ordered list of unmet game requirements,
  the status message of a plan card and its icon. Messages and icons are tags;
  JavaScript truthiness of optional fields is explicit (a missing or empty
  string is falsy, `!!flag` is true only for a present `true`).
- **Events scope** (`EventsScope`, `events_scope.dfy`): the
  `ProjectScopedContainersAccessor`, which picks how the engine builds the
  containers visible from a place in the events sheet (layout, then events
  function of a behavior, object or extension) and then adds the local
  variables of each enclosing event. Every engine factory is an
  uninterpreted constructor of the `ProjectScopedContainers` term, so the
  chosen constructor, its arguments and the order of the local-variable
  layers are exactly visible.
- **Draggable automatism** (`Draggable`, `draggable.dfy`): the per-instance
  `dragged` flag and drag offset, the shared static flags `somethingDragged`
  and `leftPressedLastFrame`, the pre-event and post-event steps and
  deactivation, stepped across a sequence of instances so that "only one
  thing is dragged" can be stated and proved as a frame invariant.
- **Scene variable field** (`SceneVariableField`,
  `scene_variable_field.dfy`): the containers and enumeration offered with
  and without a layout, the element id, when the variables dialog is shown,
  and the apply guard that only forwards a selection extending the current
  value.

`wrappers.dfy` holds the `Option` and `Result` types shared by all modules.

Two behaviours of the code worth knowing:

- Several of behavior, object and extension being set is not an error:
  `get` uses the first one present (behavior, then object, then extension)
  and fails only when none is set; `EventsScope.BaseContainers` and
  `EventsScope.BehaviorAndObjectTogether` state this.
- The public build requirement check fires when publication is *not*
  required (see Findings). `MarketingPlans.RequirementsErrors` keeps the code's
  condition.

Inputs the model takes as parameters: the mouse position through each camera
of the object's layer and the left button state (the drag automatism), the
variables enumeration (the scene variable field), the limits table and the
active featurings list (the marketing plans).

## Model

| member | source | states |
|---|---|---|
| MarketingPlans.IconForMarketingPlan | newIDE/app/src/MarketingPlans/MarketingPlanUtils.js:20-31 | only the strings `speaker`, `speedometer` and `stars` give an icon, the icon named by the string; every other string gives none |
| MarketingPlans.FilterIncluded | newIDE/app/src/MarketingPlans/MarketingPlanUtils.js:39-41 | the filtered list holds exactly the entries whose featuring the plan includes, each as often as in the input, and is no longer than the input |
| MarketingPlans.FilterIncludedAppend | newIDE/app/src/MarketingPlans/MarketingPlanUtils.js:39-41 | filtering a concatenation is the concatenation of the filtered parts, so the kept entries keep their relative order |
| MarketingPlans.FirstIncludedIndex | newIDE/app/src/MarketingPlans/MarketingPlanUtils.js:69-70 | the index of the first active entry whose featuring is included, or the list length when none is |
| MarketingPlans.FilterIncludedHead | newIDE/app/src/MarketingPlans/MarketingPlanUtils.js:64-70 | the plan's active featurings are empty iff no entry is included, and otherwise start with the first included entry of the input |
| MarketingPlans.ActiveFeaturingsOfMarketingPlan | newIDE/app/src/MarketingPlans/MarketingPlanUtils.js:33-42 | an absent list gives no featurings; otherwise an entry is kept iff it is active and its featuring is included by the plan |
| MarketingPlans.AnyHasFeaturing | newIDE/app/src/MarketingPlans/MarketingPlanUtils.js:103-106 | true iff some active entry has the given featuring |
| MarketingPlans.AllIncludedActive | newIDE/app/src/MarketingPlans/MarketingPlanUtils.js:102-107 | true iff every included featuring is held by some active entry |
| MarketingPlans.IsMarketingPlanActive | newIDE/app/src/MarketingPlans/MarketingPlanUtils.js:94-108 | false for an absent list; otherwise true iff every included featuring equals the featuring of some active entry (vacuously true when none is included) |
| MarketingPlans.ActivePlanHasActiveFeaturings | newIDE/app/src/MarketingPlans/MarketingPlanUtils.js:64-66 | an active plan including at least one featuring has a non-empty list of its own active featurings, so the "should not happen" branch is not taken for it |
| MarketingPlans.PriceOfEntry | newIDE/app/src/MarketingPlans/MarketingPlanUtils.js:81-92 | `MarketingPlanPrice` gives exactly `c` for a plan whose id has an entry of `c` credits, zero included, whatever the rest of the table holds; no price without the entry or without limits; other plans' prices do not depend on this entry |
| MarketingPlans.ActiveMessageFor | newIDE/app/src/MarketingPlans/MarketingPlanUtils.js:44-79 | errors give the fix-issues message whatever the featurings; otherwise no message iff no active entry is included; the manual-contact message when the plan requires it; else "active until" the first included entry's expiry times 1000; the plain "Active" message never occurs |
| MarketingPlans.ActivePlanHasMessage | newIDE/app/src/MarketingPlans/MarketingPlanUtils.js:59-78 | without errors, an active plan including a featuring always gets a message |
| MarketingPlans.CollectErrors | newIDE/app/src/MarketingPlans/MarketingPlanUtils.js:114-128 | at most three errors, strictly in the order thumbnail, public build, discoverability, each present iff its condition holds |
| MarketingPlans.RequirementsErrors | newIDE/app/src/MarketingPlans/MarketingPlanUtils.js:110-129 | thumbnail error iff a thumbnail is required and the URL is missing or empty; public build error iff publication is not required and the build id is missing or empty; discoverability error iff required and the game is not discoverable; ordered and at most three |
| MarketingPlans.IntendedRequirementsErrors | newIDE/app/src/MarketingPlans/MarketingPlanUtils.js:119-123 | same list with the public build error tied to publication being required |
| MarketingPlans.PublicBuildCheckInverted | newIDE/app/src/MarketingPlans/MarketingPlanUtils.js:119-123 | a plan requiring publication reports nothing for a game without a build, while one requiring nothing reports the missing build |
| MarketingPlans.MissingThumbnailOnly | newIDE/app/src/MarketingPlans/MarketingPlanUtils.js:116-126 | a discoverable game with a build but no thumbnail, under a plan requiring thumbnail and publication, gets exactly the thumbnail error |
| EventsScope.BaseContainers | newIDE/app/src/InstructionOrExpression/EventsScope.flow.js:36-85 | a layout always wins; with no layout and an events function, the behavior's containers are built iff a behavior is set, the object's iff no behavior but an object, the extension's iff neither but an extension, each with that entity, the scope's project and function and the two objects containers; several being set is no error; the function-without-container error and the no-layout-no-function error in exactly their cases |
| EventsScope.LocalsOfApply | newIDE/app/src/InstructionOrExpression/EventsScope.flow.js:86-91 | wrapping containers in the events of a path adds exactly those events, in path order, and keeps the base |
| EventsScope.LocalsOfApplyBase | newIDE/app/src/InstructionOrExpression/EventsScope.flow.js:86-91 | splitting the wrapped base gives back the base and the path |
| EventsScope.ApplyLocalVariablesSnoc | newIDE/app/src/InstructionOrExpression/EventsScope.flow.js:86-91 | a path extended by one event wraps the earlier result once more, outermost |
| EventsScope.Get | newIDE/app/src/InstructionOrExpression/EventsScope.flow.js:36-94 | fails exactly when the base resolution fails, with its error; on success the result is the base wrapped by `ApplyLocalVariables` in one local-variables layer per event, in path order; an empty path gives the base unchanged |
| EventsScope.GetWithLocalVariables | newIDE/app/src/InstructionOrExpression/EventsScope.flow.js:96-103 | the accessor `MakeNewWithLocalVariables` derives resolves to the original's result with the event's local variables on top, and fails exactly when the original fails, with the same error |
| EventsScope.ExternalEventsIgnored | newIDE/app/src/InstructionOrExpression/EventsScope.flow.js:38-45 | the external events of the scope never change the result |
| EventsScope.BehaviorAndObjectTogether | newIDE/app/src/InstructionOrExpression/EventsScope.flow.js:51-75 | with behavior, object and extension all set, the behavior's containers are built |
| Draggable.FirstHit | Extensions/DraggableAutomatism/DraggableAutomatism.cpp:34-50 | the chosen camera is the lowest index whose mouse point lies in the drawable box, borders included; none when no camera hits |
| Draggable.StepPreEvents | Extensions/DraggableAutomatism/DraggableAutomatism.cpp:27-69 | a drag begins only under the press-edge guard `CanBegin` and on a hit (`Hits`, borders included), setting both flags, choosing the first hitting camera and leaving the object in place; no hit changes nothing; a release ends the drag and clears the shared flag; a held button keeps the flags, offsets and drag camera; a dragged object sits at its camera's mouse point minus the stored offset |
| Draggable.ReleaseFrameResets | Extensions/DraggableAutomatism/DraggableAutomatism.cpp:53-74 | a frame with the button released, stepping an instance, leaves nothing dragged, the shared flag clear and the button recorded as up (`StepPostEvents`), so the next press is an edge |
| Draggable.PressEdgeDragsFirstHit | Extensions/DraggableAutomatism/DraggableAutomatism.cpp:30-50 | on a press edge with nothing dragged, an instance begins a drag iff it is under the mouse and no instance stepping before it is |
| Draggable.PreEventsAll | Extensions/DraggableAutomatism/DraggableAutomatism.cpp:27-69 | stepping every instance keeps their number and the remembered button state, and moves only dragged objects |
| Draggable.PostEventsAll | Extensions/DraggableAutomatism/DraggableAutomatism.cpp:71-74 | with at least one instance the remembered button state becomes the current one; with none nothing changes |
| Draggable.Frame | Extensions/DraggableAutomatism/DraggableAutomatism.cpp:27-74 | after a frame with an instance, the remembered button state is the frame's |
| Draggable.PreEventsReleased | Extensions/DraggableAutomatism/DraggableAutomatism.cpp:53-57 | with the button released no instance is dragged afterwards and the shared flag is cleared |
| Draggable.PreEventsLocked | Extensions/DraggableAutomatism/DraggableAutomatism.cpp:30-31 | while held, with a drag under way or the button already down last frame, no drag begins or ends and the shared flags stay |
| Draggable.PreEventsConsistent | Extensions/DraggableAutomatism/DraggableAutomatism.cpp:27-69 | stepping all instances keeps at most one dragged and the shared flag set while one is |
| Draggable.FrameConsistent | Extensions/DraggableAutomatism/DraggableAutomatism.cpp:27-74 | a whole frame keeps at most one instance dragged |
| Draggable.HeldButtonBeginsNothing | Extensions/DraggableAutomatism/DraggableAutomatism.cpp:30-73 | holding the button into the next frame begins no drag: drags begin only on a press edge |
| Draggable.BeginKeepsPosition | Extensions/DraggableAutomatism/DraggableAutomatism.cpp:44-67 | on the frame a drag begins the object stays where it was |
| Draggable.DeActivateConsistent | Extensions/DraggableAutomatism/DraggableAutomatism.cpp:76-80 | deactivating any instance (`DeActivate`: it stops dragging and releases the shared flag only if it held it) keeps at most one dragged and the shared flag set while one is |
| SceneVariableField.EnumerationMatchesContainers | newIDE/app/src/EventsSheet/ParameterFields/SceneVariableField.js:31-48 | `EnumerateSceneVariables` lists, in order, exactly the variables the enumeration yields for the containers `VariablesContainers` offers (the layout's variables, or none), each with the scene icon; no container offered means nothing listed; at most one container is searched |
| SceneVariableField.FieldId | newIDE/app/src/EventsSheet/ParameterFields/SceneVariableField.js:66-70 | an id iff the parameter index is defined, made of `parameter-`, decimal digits without a leading zero (the index itself, see the round trip) and `-scene-variable-field` |
| SceneVariableField.FieldIdRoundTrip | newIDE/app/src/EventsSheet/ParameterFields/SceneVariableField.js:66-70 | the parameter index can be read back from the id |
| SceneVariableField.FieldIdInjective | newIDE/app/src/EventsSheet/ParameterFields/SceneVariableField.js:66-70 | distinct parameters get distinct ids |
| SceneVariableField.StartsWith | newIDE/app/src/EventsSheet/ParameterFields/SceneVariableField.js:81 | true iff the prefix is no longer than the string and equals its beginning |
| SceneVariableField.DialogVisibility | newIDE/app/src/EventsSheet/ParameterFields/SceneVariableField.js:62-77 | after the editor is asked for (`OpenDialog`) the dialog shows (`DialogShown`) iff a layout and a project are present; it never shows after cancelling (`CancelDialog`) or without a layout; opening and cancelling keep the value |
| SceneVariableField.OnApply | newIDE/app/src/EventsSheet/ParameterFields/SceneVariableField.js:78-87 | the selection is forwarded iff it is present, non-empty and begins with the current value, and then unchanged; the editor always closes |
| SceneVariableField.ApplyToField | newIDE/app/src/EventsSheet/ParameterFields/SceneVariableField.js:78-85 | afterwards the editor is closed; a present, non-empty selection extending the value becomes the value, and otherwise the value is the old one |
| SceneVariableField.ApplyExtendsValue | newIDE/app/src/EventsSheet/ParameterFields/SceneVariableField.js:79-85 | the value after applying always begins with the value before, and the dialog is hidden |
| SceneVariableField.EmptyValueForwardsAny | newIDE/app/src/EventsSheet/ParameterFields/SceneVariableField.js:80-81 | with an empty value any non-empty selection is forwarded |
| SceneVariableField.NonExtendingSelectionIgnored | newIDE/app/src/EventsSheet/ParameterFields/SceneVariableField.js:79-85 | a missing, empty or non-extending selection leaves the value as it was and closes the editor |
| SceneVariableField.PlayerExamples | newIDE/app/src/EventsSheet/ParameterFields/SceneVariableField.js:79-84 | with value `Player`, `PlayerScore` is forwarded and `Enemy` is not |

## Left out

- The game dashboard (`GameDashboardV2/index.js`): network fetches of comments and builds, React state and effects, and the unguarded ordering of late responses; it is asynchronous I/O glue.
- The game header (`GameDashboardV2/GameHeader.js`) and the flip icon (`UI/CustomSvgIcons/FlipHorizontal.js`): rendering and static SVG without decision logic.
- The engine's factories of project-scoped containers: foreign native calls, modelled as uninterpreted terms; their internals are not part of this model.
- Screen-to-scene mapping of the mouse (`mapPixelToCoords`), the input manager and float coordinates: the mouse point through each camera is an input and coordinates are exact integers, so rounding is abstracted away.
- What the scene events do between the pre-event and post-event steps of a frame (they may move objects); `Draggable.Frame` applies the two steps back to back.
- Draggable.StepPreEvents: requires the drag camera to still exist while the button is held, because the C++ looks the camera up by index without a check; the runtime layer is not part of this model.
- The automatism constructor: it only clears `dragged`; the offsets it leaves uninitialised are never read before a drag begins.
- Translation, `<Trans>` nodes and date formatting: messages are tags, and "active until" carries the raw `expiresAt * 1000` value.
- The variables enumeration body, React refs and hooks, focusing and the autocompletion refresh after applying.
- Object-key lookups of the price table that hit inherited JavaScript properties (for example an id of `toString`): the table is a plain map.
- `parameterIndex` is a natural number printed in plain decimal; a negative or fractional JavaScript number, or one of 1e21 or more (printed in exponent form, e.g. `parameter-1e+21-scene-variable-field`), would print differently, and indices above 2^53 are not held exactly by a JavaScript number.

## Findings

| source | as written | input that shows it | evidently intended | confidence | as-written member | corrected member |
|---|---|---|---|---|---|---|
| newIDE/app/src/MarketingPlans/MarketingPlanUtils.js:119 | the public build error fires when `isPublished` is not required and the build id is missing | a plan requiring `isPublished: true` and a game without `publicWebBuildId` gets no error, while a plan with no requirements gets "does not have a public build" | `!!isPublished && !publicWebBuildId`, like the thumbnail and discoverability checks | medium, not executed | MarketingPlans.PublicBuildCheckInverted | MarketingPlans.IntendedRequirementsErrors |
