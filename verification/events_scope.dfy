/** Resolution of the containers (objects, variables, ...) visible from a
    place in the events sheet. The engine objects are opaque handles, and
    every engine constructor of a set of project-scoped containers is an
    uninterpreted term of `ProjectScopedContainers`, so which constructor
    is chosen, with which arguments and in which order, is exactly visible. */
module EventsScope {
  import opened Wrappers

  // Opaque handles to engine objects: only their identity matters here.
  datatype Project = Project(id: nat)
  datatype Layout = Layout(id: nat)
  datatype ExternalEvents = ExternalEvents(id: nat)
  datatype EventsFunctionsExtension = EventsFunctionsExtension(id: nat)
  datatype EventsBasedBehavior = EventsBasedBehavior(id: nat)
  datatype EventsBasedObject = EventsBasedObject(id: nat)
  datatype EventsFunction = EventsFunction(id: nat)
  datatype ObjectsContainer = ObjectsContainer(id: nat)
  datatype BaseEvent = BaseEvent(id: nat)

  /** Where the edited events live; every field but the project is optional. */
  datatype Scope = Scope(
    project: Project,
    layout: Option<Layout>,
    externalEvents: Option<ExternalEvents>,
    eventsFunctionsExtension: Option<EventsFunctionsExtension>,
    eventsBasedBehavior: Option<EventsBasedBehavior>,
    eventsBasedObject: Option<EventsBasedObject>,
    eventsFunction: Option<EventsFunction>)

  /** The engine's project-scoped containers, one constructor per factory
      function of the engine. */
  datatype ProjectScopedContainers =
    | ForProjectAndLayout(project: Project, layout: Layout)
    | ForBehaviorEventsFunction(project: Project, eventsBasedBehavior: EventsBasedBehavior, eventsFunction: EventsFunction,
                                globalObjects: ObjectsContainer, objects: ObjectsContainer)
    | ForObjectEventsFunction(project: Project, eventsBasedObject: EventsBasedObject, eventsFunction: EventsFunction,
                              globalObjects: ObjectsContainer, objects: ObjectsContainer)
    | ForFreeEventsFunction(project: Project, eventsFunctionsExtension: EventsFunctionsExtension, eventsFunction: EventsFunction,
                            globalObjects: ObjectsContainer, objects: ObjectsContainer)
    | WithLocalVariables(inner: ProjectScopedContainers, event: BaseEvent)

  /** The two errors `get` throws. */
  datatype ScopeError =
    | EventsFunctionWithoutContainer   // an eventsFunction without behavior, object or extension
    | NoLayoutNorEventsFunction        // neither a layout nor an eventsFunction

  /** A scope, the two objects containers, and the path of enclosing events
      (empty when the accessor is built without one). */
  datatype Accessor = Accessor(
    scope: Scope,
    globalObjectsContainer: ObjectsContainer,
    objectsContainer: ObjectsContainer,
    eventPath: seq<BaseEvent>)

  /** Containers made directly from a scope, without local variables. */
  predicate IsBase(c: ProjectScopedContainers) {
    !c.WithLocalVariables?
  }

  /** The containers chosen from the scope alone: layout first, then an
      events function, in which the behavior wins over the object, which
      wins over the extension. */
  function BaseContainers(acc: Accessor): (r: Result<ProjectScopedContainers, ScopeError>)
    ensures r.Success? ==> IsBase(r.value)
    ensures r.Success? <==>
              acc.scope.layout.Some? ||
              (acc.scope.eventsFunction.Some? &&
               (acc.scope.eventsBasedBehavior.Some? || acc.scope.eventsBasedObject.Some? ||
                acc.scope.eventsFunctionsExtension.Some?))
    ensures acc.scope.layout.Some? ==>
              r == Success(ForProjectAndLayout(acc.scope.project, acc.scope.layout.value))
    ensures acc.scope.layout.None? && acc.scope.eventsFunction.None? ==>
              r == Failure(NoLayoutNorEventsFunction)
    ensures acc.scope.layout.None? && acc.scope.eventsFunction.Some? && r.Failure? ==>
              r.error == EventsFunctionWithoutContainer
    ensures r.Success? ==> r.value.project == acc.scope.project
    ensures r.Success? && r.value.ForProjectAndLayout? ==> acc.scope.layout.Some?
    ensures (r.Success? && r.value.ForBehaviorEventsFunction?) <==>
              acc.scope.layout.None? && acc.scope.eventsFunction.Some? && acc.scope.eventsBasedBehavior.Some?
    ensures r.Success? && r.value.ForBehaviorEventsFunction? ==>
              r.value.eventsBasedBehavior == acc.scope.eventsBasedBehavior.value
    ensures (r.Success? && r.value.ForObjectEventsFunction?) <==>
              && acc.scope.layout.None? && acc.scope.eventsFunction.Some?
              && acc.scope.eventsBasedBehavior.None? && acc.scope.eventsBasedObject.Some?
    ensures r.Success? && r.value.ForObjectEventsFunction? ==>
              r.value.eventsBasedObject == acc.scope.eventsBasedObject.value
    ensures (r.Success? && r.value.ForFreeEventsFunction?) <==>
              && acc.scope.layout.None? && acc.scope.eventsFunction.Some?
              && acc.scope.eventsBasedBehavior.None? && acc.scope.eventsBasedObject.None?
              && acc.scope.eventsFunctionsExtension.Some?
    ensures r.Success? && r.value.ForFreeEventsFunction? ==>
              r.value.eventsFunctionsExtension == acc.scope.eventsFunctionsExtension.value
    ensures r.Success? && !r.value.ForProjectAndLayout? ==>
              && acc.scope.layout.None?
              && r.value.eventsFunction == acc.scope.eventsFunction.value
              && r.value.globalObjects == acc.globalObjectsContainer
              && r.value.objects == acc.objectsContainer
  {
    var s := acc.scope;
    if s.layout.Some? then
      Success(ForProjectAndLayout(s.project, s.layout.value))
    else if s.eventsFunction.Some? then
      if s.eventsBasedBehavior.Some? then
        Success(ForBehaviorEventsFunction(s.project, s.eventsBasedBehavior.value, s.eventsFunction.value,
                                          acc.globalObjectsContainer, acc.objectsContainer))
      else if s.eventsBasedObject.Some? then
        Success(ForObjectEventsFunction(s.project, s.eventsBasedObject.value, s.eventsFunction.value,
                                        acc.globalObjectsContainer, acc.objectsContainer))
      else if s.eventsFunctionsExtension.Some? then
        Success(ForFreeEventsFunction(s.project, s.eventsFunctionsExtension.value, s.eventsFunction.value,
                                      acc.globalObjectsContainer, acc.objectsContainer))
      else
        Failure(EventsFunctionWithoutContainer)
    else
      Failure(NoLayoutNorEventsFunction)
  }

  /** Wraps `c` in local variables once per event of `path`, first event
      innermost (the `for ... of` loop of `get`). */
  function ApplyLocalVariables(c: ProjectScopedContainers, path: seq<BaseEvent>): ProjectScopedContainers
    decreases |path|
  {
    if |path| == 0 then c
    else ApplyLocalVariables(WithLocalVariables(c, path[0]), path[1..])
  }

  /** Splits containers into the base they were made from and the events
      whose local variables were added, outermost last. */
  function LocalsOf(c: ProjectScopedContainers): (ProjectScopedContainers, seq<BaseEvent>) {
    match c
    case WithLocalVariables(inner, e) =>
      var (b, p) := LocalsOf(inner);
      (b, p + [e])
    case _ => (c, [])
  }

  /** Applying a path adds exactly its events, in order, to the ones
      already there, and keeps the base. */
  lemma {:induction false} LocalsOfApply(c: ProjectScopedContainers, path: seq<BaseEvent>)
    ensures LocalsOf(ApplyLocalVariables(c, path)) == (LocalsOf(c).0, LocalsOf(c).1 + path)
    decreases |path|
  {
    if |path| == 0 {
      assert LocalsOf(c).1 + path == LocalsOf(c).1;
    } else {
      LocalsOfApply(WithLocalVariables(c, path[0]), path[1..]);
      assert LocalsOf(c).1 + [path[0]] + path[1..] == LocalsOf(c).1 + path;
    }
  }

  /** Applying a path to a base and splitting the result gives both back. */
  lemma LocalsOfApplyBase(b: ProjectScopedContainers, path: seq<BaseEvent>)
    requires IsBase(b)
    ensures LocalsOf(ApplyLocalVariables(b, path)) == (b, path)
  {
    LocalsOfApply(b, path);
    assert [] + path == path;
  }

  /** Extending the path by one event wraps the previous result once more. */
  lemma {:induction false} ApplyLocalVariablesSnoc(c: ProjectScopedContainers, path: seq<BaseEvent>, e: BaseEvent)
    ensures ApplyLocalVariables(c, path + [e]) == WithLocalVariables(ApplyLocalVariables(c, path), e)
    decreases |path|
  {
    if |path| == 0 {
      assert path + [e] == [e];
      assert [e][1..] == [];
    } else {
      assert (path + [e])[1..] == path[1..] + [e];
      ApplyLocalVariablesSnoc(WithLocalVariables(c, path[0]), path[1..], e);
    }
  }

  /** `get`: the base containers with the local variables of every event of
      the path, in path order; it fails exactly when the base does. */
  function Get(acc: Accessor): (r: Result<ProjectScopedContainers, ScopeError>)
    ensures r.Success? <==> BaseContainers(acc).Success?
    ensures r.Failure? ==> r.error == BaseContainers(acc).error
    ensures r.Success? ==> LocalsOf(r.value) == (BaseContainers(acc).value, acc.eventPath)
    ensures acc.eventPath == [] ==> r == BaseContainers(acc)
  {
    var base :- BaseContainers(acc);
    LocalsOfApplyBase(base, acc.eventPath);
    Success(ApplyLocalVariables(base, acc.eventPath))
  }

  /** A new accessor for the events nested in `e`; the receiver is a value
      and so stays as it was. */
  function MakeNewWithLocalVariables(acc: Accessor, e: BaseEvent): (r: Accessor)
    ensures r.scope == acc.scope
    ensures r.globalObjectsContainer == acc.globalObjectsContainer
    ensures r.objectsContainer == acc.objectsContainer
    ensures |r.eventPath| == |acc.eventPath| + 1
    ensures r.eventPath[..|acc.eventPath|] == acc.eventPath && r.eventPath[|acc.eventPath|] == e
  {
    Accessor(acc.scope, acc.globalObjectsContainer, acc.objectsContainer, acc.eventPath + [e])
  }

  /** The derived accessor resolves to the original's containers with the
      local variables of `e` on top, and fails exactly when the original
      fails, with the same error. */
  lemma GetWithLocalVariables(acc: Accessor, e: BaseEvent)
    ensures Get(acc).Failure? ==> Get(MakeNewWithLocalVariables(acc, e)) == Get(acc)
    ensures Get(acc).Success? ==>
              Get(MakeNewWithLocalVariables(acc, e)) == Success(WithLocalVariables(Get(acc).value, e))
  {
    if Get(acc).Success? {
      ApplyLocalVariablesSnoc(BaseContainers(acc).value, acc.eventPath, e);
    }
  }

  /** The external events of the scope never change the result. */
  lemma ExternalEventsIgnored(acc: Accessor, x: Option<ExternalEvents>)
    ensures Get(acc.(scope := acc.scope.(externalEvents := x))) == Get(acc)
  {
  }

  /** Several of behavior, object and extension being set is no error: the
      behavior is used. */
  lemma BehaviorAndObjectTogether(p: Project, b: EventsBasedBehavior, o: EventsBasedObject,
                                  x: EventsFunctionsExtension, f: EventsFunction,
                                  g: ObjectsContainer, objs: ObjectsContainer)
    ensures var s := Scope(p, None, None, Some(x), Some(b), Some(o), Some(f));
            Get(Accessor(s, g, objs, [])) == Success(ForBehaviorEventsFunction(p, b, f, g, objs))
  {
  }
}
