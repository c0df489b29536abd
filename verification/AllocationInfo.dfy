/** Setting and clearing the allocation info of the resources an offer operation works on, whatever its kind. */
module AllocationInfo {
  import opened Wrappers

  type Role = string

  /** `content` stands for a message's other fields. */
  datatype Resource = Resource(content: nat, allocation: Option<Role>)

  datatype ExecutorInfo = ExecutorInfo(content: nat, resources: seq<Resource>)
  datatype TaskInfo = TaskInfo(content: nat, resources: seq<Resource>, executor: Option<ExecutorInfo>)

  datatype Launch = Launch(tasks: seq<TaskInfo>)
  datatype LaunchGroup = LaunchGroup(executor: Option<ExecutorInfo>, tasks: seq<TaskInfo>)
  datatype Reserve = Reserve(source: seq<Resource>, resources: seq<Resource>)
  datatype Volumes = Volumes(resources: seq<Resource>)
  datatype GrowVolume = GrowVolume(volume: Resource, addition: Resource)
  datatype Single = Single(resource: Resource, content: nat)

  datatype Kind =
    | UNKNOWN | LAUNCH | LAUNCH_GROUP | RESERVE | UNRESERVE | CREATE | DESTROY
    | GROW_VOLUME | SHRINK_VOLUME | CREATE_DISK | DESTROY_DISK

  /** A message can carry submessages of any kind; its kind says which one counts. */
  datatype Operation = Operation(
    kind: Kind,
    launch: Option<Launch>,
    launchGroup: Option<LaunchGroup>,
    reserve: Option<Reserve>,
    unreserve: Option<Volumes>,
    create: Option<Volumes>,
    destroy: Option<Volumes>,
    growVolume: Option<GrowVolume>,
    shrinkVolume: Option<Single>,
    createDisk: Option<Single>,
    destroyDisk: Option<Single>)

  const BLANK := Resource(0, None)

  /** Reading a submessage for writing creates it empty if it is not there. */
  function Mutable<M>(m: Option<M>, empty: M): M {
    if m.Some? then m.value else empty
  }

  // ---------------------------------------------------------------- rewriting the selected resources

  type Rewrite = Resource -> Resource

  function Injected(role: Role): Rewrite {
    (r: Resource) => if r.allocation.None? then r.(allocation := Some(role)) else r
  }

  function Stripped(): Rewrite {
    (r: Resource) => r.(allocation := None)
  }

  function InAll(f: Rewrite, resources: seq<Resource>): (r: seq<Resource>)
    ensures |r| == |resources|
  {
    seq(|resources|, i requires 0 <= i < |resources| => f(resources[i]))
  }

  function InExecutor(f: Rewrite, executor: Option<ExecutorInfo>): Option<ExecutorInfo> {
    if executor.None? then None else Some(executor.value.(resources := InAll(f, executor.value.resources)))
  }

  function InTask(f: Rewrite, task: TaskInfo): TaskInfo {
    task.(resources := InAll(f, task.resources), executor := InExecutor(f, task.executor))
  }

  function InTasks(f: Rewrite, tasks: seq<TaskInfo>): (r: seq<TaskInfo>)
    ensures |r| == |tasks|
  {
    seq(|tasks|, i requires 0 <= i < |tasks| => InTask(f, tasks[i]))
  }

  /** The operation with `f` applied to each resource its kind selects. */
  function InOperation(f: Rewrite, op: Operation): Operation {
    match op.kind
    case LAUNCH =>
      var m := Mutable(op.launch, Launch([]));
      op.(launch := Some(Launch(InTasks(f, m.tasks))))
    case LAUNCH_GROUP =>
      var m := Mutable(op.launchGroup, LaunchGroup(None, []));
      op.(launchGroup := Some(LaunchGroup(InExecutor(f, m.executor), InTasks(f, m.tasks))))
    case RESERVE =>
      var m := Mutable(op.reserve, Reserve([], []));
      op.(reserve := Some(m.(resources := InAll(f, m.resources))))
    case UNRESERVE => op.(unreserve := Some(Volumes(InAll(f, Mutable(op.unreserve, Volumes([])).resources))))
    case CREATE => op.(create := Some(Volumes(InAll(f, Mutable(op.create, Volumes([])).resources))))
    case DESTROY => op.(destroy := Some(Volumes(InAll(f, Mutable(op.destroy, Volumes([])).resources))))
    case GROW_VOLUME =>
      var m := Mutable(op.growVolume, GrowVolume(BLANK, BLANK));
      op.(growVolume := Some(GrowVolume(f(m.volume), f(m.addition))))
    case SHRINK_VOLUME => op.(shrinkVolume := Some(InSingle(f, Mutable(op.shrinkVolume, Single(BLANK, 0)))))
    case CREATE_DISK => op.(createDisk := Some(InSingle(f, Mutable(op.createDisk, Single(BLANK, 0)))))
    case DESTROY_DISK => op.(destroyDisk := Some(InSingle(f, Mutable(op.destroyDisk, Single(BLANK, 0)))))
    case UNKNOWN => op
  }

  function InSingle(f: Rewrite, m: Single): Single {
    m.(resource := f(m.resource))
  }

  // ---------------------------------------------------------------- injecting

  method Inject(resource: Resource, role: Role) returns (r: Resource)
    ensures r == Injected(role)(resource)
  {
    r := resource;
    if r.allocation.None? {
      r := r.(allocation := Some(role));
    }
  }

  method InjectAll(resources: seq<Resource>, role: Role) returns (r: seq<Resource>)
    ensures r == InAll(Injected(role), resources)
  {
    r := resources;
    for i := 0 to |resources|
      invariant |r| == |resources|
      invariant forall j | 0 <= j < i :: r[j] == Injected(role)(resources[j])
      invariant forall j | i <= j < |r| :: r[j] == resources[j]
    {
      var resource := Inject(r[i], role);
      r := r[i := resource];
    }
  }

  method InjectTasks(tasks: seq<TaskInfo>, role: Role) returns (r: seq<TaskInfo>)
    ensures r == InTasks(Injected(role), tasks)
  {
    r := tasks;
    for i := 0 to |tasks|
      invariant |r| == |tasks|
      invariant forall j | 0 <= j < i :: r[j] == InTask(Injected(role), tasks[j])
      invariant forall j | i <= j < |r| :: r[j] == tasks[j]
    {
      var task := r[i];
      var resources := InjectAll(task.resources, role);
      task := task.(resources := resources);
      if task.executor.Some? {
        var own := InjectAll(task.executor.value.resources, role);
        task := task.(executor := Some(task.executor.value.(resources := own)));
      }
      r := r[i := task];
    }
  }

  method InjectAllocationInfo(op: Operation, role: Role) returns (r: Operation)
    ensures r == InOperation(Injected(role), op)
  {
    r := op;
    match op.kind {
      case LAUNCH =>
        var tasks := InjectTasks(Mutable(op.launch, Launch([])).tasks, role);
        r := r.(launch := Some(Launch(tasks)));
      case LAUNCH_GROUP =>
        var m := Mutable(op.launchGroup, LaunchGroup(None, []));
        if m.executor.Some? {
          var own := InjectAll(m.executor.value.resources, role);
          m := m.(executor := Some(m.executor.value.(resources := own)));
        }
        var tasks := InjectTasks(m.tasks, role);
        r := r.(launchGroup := Some(m.(tasks := tasks)));
      case RESERVE =>
        var m := Mutable(op.reserve, Reserve([], []));
        var resources := InjectAll(m.resources, role);
        r := r.(reserve := Some(m.(resources := resources)));
      case UNRESERVE =>
        var resources := InjectAll(Mutable(op.unreserve, Volumes([])).resources, role);
        r := r.(unreserve := Some(Volumes(resources)));
      case CREATE =>
        var volumes := InjectAll(Mutable(op.create, Volumes([])).resources, role);
        r := r.(create := Some(Volumes(volumes)));
      case DESTROY =>
        var volumes := InjectAll(Mutable(op.destroy, Volumes([])).resources, role);
        r := r.(destroy := Some(Volumes(volumes)));
      case GROW_VOLUME =>
        var m := Mutable(op.growVolume, GrowVolume(BLANK, BLANK));
        var volume := Inject(m.volume, role);
        m := m.(volume := volume);
        var addition := Inject(m.addition, role);
        r := r.(growVolume := Some(m.(addition := addition)));
      case SHRINK_VOLUME =>
        var m := Mutable(op.shrinkVolume, Single(BLANK, 0));
        var volume := Inject(m.resource, role);
        r := r.(shrinkVolume := Some(m.(resource := volume)));
      case CREATE_DISK =>
        var m := Mutable(op.createDisk, Single(BLANK, 0));
        var source := Inject(m.resource, role);
        r := r.(createDisk := Some(m.(resource := source)));
      case DESTROY_DISK =>
        var m := Mutable(op.destroyDisk, Single(BLANK, 0));
        var source := Inject(m.resource, role);
        r := r.(destroyDisk := Some(m.(resource := source)));
      case UNKNOWN =>
    }
  }

  // ---------------------------------------------------------------- stripping

  method Strip(resource: Resource) returns (r: Resource)
    ensures r == Stripped()(resource)
  {
    r := resource;
    if r.allocation.Some? {
      r := r.(allocation := None);
    }
  }

  method StripAll(resources: seq<Resource>) returns (r: seq<Resource>)
    ensures r == InAll(Stripped(), resources)
  {
    r := resources;
    for i := 0 to |resources|
      invariant |r| == |resources|
      invariant forall j | 0 <= j < i :: r[j] == Stripped()(resources[j])
      invariant forall j | i <= j < |r| :: r[j] == resources[j]
    {
      var resource := Strip(r[i]);
      r := r[i := resource];
    }
  }

  method StripTasks(tasks: seq<TaskInfo>) returns (r: seq<TaskInfo>)
    ensures r == InTasks(Stripped(), tasks)
  {
    r := tasks;
    for i := 0 to |tasks|
      invariant |r| == |tasks|
      invariant forall j | 0 <= j < i :: r[j] == InTask(Stripped(), tasks[j])
      invariant forall j | i <= j < |r| :: r[j] == tasks[j]
    {
      var task := r[i];
      var resources := StripAll(task.resources);
      task := task.(resources := resources);
      if task.executor.Some? {
        var own := StripAll(task.executor.value.resources);
        task := task.(executor := Some(task.executor.value.(resources := own)));
      }
      r := r[i := task];
    }
  }

  method StripAllocationInfo(op: Operation) returns (r: Operation)
    ensures r == InOperation(Stripped(), op)
  {
    r := op;
    match op.kind {
      case LAUNCH =>
        var tasks := StripTasks(Mutable(op.launch, Launch([])).tasks);
        r := r.(launch := Some(Launch(tasks)));
      case LAUNCH_GROUP =>
        var m := Mutable(op.launchGroup, LaunchGroup(None, []));
        if m.executor.Some? {
          var own := StripAll(m.executor.value.resources);
          m := m.(executor := Some(m.executor.value.(resources := own)));
        }
        var tasks := StripTasks(m.tasks);
        r := r.(launchGroup := Some(m.(tasks := tasks)));
      case RESERVE =>
        var m := Mutable(op.reserve, Reserve([], []));
        var resources := StripAll(m.resources);
        r := r.(reserve := Some(m.(resources := resources)));
      case UNRESERVE =>
        var resources := StripAll(Mutable(op.unreserve, Volumes([])).resources);
        r := r.(unreserve := Some(Volumes(resources)));
      case CREATE =>
        var volumes := StripAll(Mutable(op.create, Volumes([])).resources);
        r := r.(create := Some(Volumes(volumes)));
      case DESTROY =>
        var volumes := StripAll(Mutable(op.destroy, Volumes([])).resources);
        r := r.(destroy := Some(Volumes(volumes)));
      case GROW_VOLUME =>
        var m := Mutable(op.growVolume, GrowVolume(BLANK, BLANK));
        var volume := Strip(m.volume);
        m := m.(volume := volume);
        var addition := Strip(m.addition);
        r := r.(growVolume := Some(m.(addition := addition)));
      case SHRINK_VOLUME =>
        var m := Mutable(op.shrinkVolume, Single(BLANK, 0));
        var volume := Strip(m.resource);
        r := r.(shrinkVolume := Some(m.(resource := volume)));
      case CREATE_DISK =>
        var m := Mutable(op.createDisk, Single(BLANK, 0));
        var source := Strip(m.resource);
        r := r.(createDisk := Some(m.(resource := source)));
      case DESTROY_DISK =>
        var m := Mutable(op.destroyDisk, Single(BLANK, 0));
        var source := Strip(m.resource);
        r := r.(destroyDisk := Some(m.(resource := source)));
      case UNKNOWN =>
    }
  }

  // ---------------------------------------------------------------- laws

  lemma {:induction false} TasksFuse(f: Rewrite, g: Rewrite, h: Rewrite, tasks: seq<TaskInfo>)
    requires forall r: Resource :: g(f(r)) == h(r)
    ensures InTasks(g, InTasks(f, tasks)) == InTasks(h, tasks)
  {
    forall i | 0 <= i < |tasks|
      ensures InTask(g, InTask(f, tasks[i])) == InTask(h, tasks[i])
    {
      ResourcesFuse(f, g, h, tasks[i].resources);
      ExecutorFuses(f, g, h, tasks[i].executor);
    }
  }

  lemma {:induction false} ResourcesFuse(f: Rewrite, g: Rewrite, h: Rewrite, resources: seq<Resource>)
    requires forall r: Resource :: g(f(r)) == h(r)
    ensures InAll(g, InAll(f, resources)) == InAll(h, resources)
  {
  }

  lemma {:induction false} ExecutorFuses(f: Rewrite, g: Rewrite, h: Rewrite, executor: Option<ExecutorInfo>)
    requires forall r: Resource :: g(f(r)) == h(r)
    ensures InExecutor(g, InExecutor(f, executor)) == InExecutor(h, executor)
  {
    if executor.Some? {
      ResourcesFuse(f, g, h, executor.value.resources);
    }
  }

  /** Two rewritings of an operation, of any kind, are one. */
  lemma {:induction false} OperationFuses(f: Rewrite, g: Rewrite, h: Rewrite, op: Operation)
    requires forall r: Resource :: g(f(r)) == h(r)
    ensures InOperation(g, InOperation(f, op)) == InOperation(h, op)
  {
    match op.kind
    case LAUNCH => TasksFuse(f, g, h, Mutable(op.launch, Launch([])).tasks);
    case LAUNCH_GROUP =>
      var m := Mutable(op.launchGroup, LaunchGroup(None, []));
      ExecutorFuses(f, g, h, m.executor);
      TasksFuse(f, g, h, m.tasks);
    case RESERVE => ResourcesFuse(f, g, h, Mutable(op.reserve, Reserve([], [])).resources);
    case UNRESERVE => ResourcesFuse(f, g, h, Mutable(op.unreserve, Volumes([])).resources);
    case CREATE => ResourcesFuse(f, g, h, Mutable(op.create, Volumes([])).resources);
    case DESTROY => ResourcesFuse(f, g, h, Mutable(op.destroy, Volumes([])).resources);
    case _ =>
  }

  /** Stripping undoes injecting: what is left is what stripping alone leaves. */
  lemma {:induction false} StripAfterInject(op: Operation, role: Role)
    ensures InOperation(Stripped(), InOperation(Injected(role), op)) == InOperation(Stripped(), op)
  {
    OperationFuses(Injected(role), Stripped(), Stripped(), op);
  }

  /** The first injection wins: a second one, of whatever value, changes nothing. */
  lemma {:induction false} SecondInjectChangesNothing(op: Operation, role: Role, other: Role)
    ensures InOperation(Injected(other), InOperation(Injected(role), op)) == InOperation(Injected(role), op)
  {
    OperationFuses(Injected(role), Injected(other), Injected(role), op);
  }

  // ---------------------------------------------------------------- the selected resources

  function OfExecutor(executor: Option<ExecutorInfo>): seq<Resource> {
    if executor.None? then [] else executor.value.resources
  }

  function OfTasks(tasks: seq<TaskInfo>): seq<Resource> {
    if tasks == [] then [] else tasks[0].resources + OfExecutor(tasks[0].executor) + OfTasks(tasks[1..])
  }

  /** Every resource the operation's kind selects; a submessage that is not there reads as an empty one. */
  function Selected(op: Operation): seq<Resource> {
    match op.kind
    case LAUNCH => OfTasks(Mutable(op.launch, Launch([])).tasks)
    case LAUNCH_GROUP =>
      var m := Mutable(op.launchGroup, LaunchGroup(None, []));
      OfExecutor(m.executor) + OfTasks(m.tasks)
    case RESERVE => Mutable(op.reserve, Reserve([], [])).resources
    case UNRESERVE => Mutable(op.unreserve, Volumes([])).resources
    case CREATE => Mutable(op.create, Volumes([])).resources
    case DESTROY => Mutable(op.destroy, Volumes([])).resources
    case GROW_VOLUME =>
      var m := Mutable(op.growVolume, GrowVolume(BLANK, BLANK));
      [m.volume, m.addition]
    case SHRINK_VOLUME => [Mutable(op.shrinkVolume, Single(BLANK, 0)).resource]
    case CREATE_DISK => [Mutable(op.createDisk, Single(BLANK, 0)).resource]
    case DESTROY_DISK => [Mutable(op.destroyDisk, Single(BLANK, 0)).resource]
    case UNKNOWN => []
  }

  lemma {:induction false} InBoth(f: Rewrite, a: seq<Resource>, b: seq<Resource>)
    ensures InAll(f, a + b) == InAll(f, a) + InAll(f, b)
  {
  }

  lemma {:induction false} ExecutorSelected(f: Rewrite, executor: Option<ExecutorInfo>)
    ensures OfExecutor(InExecutor(f, executor)) == InAll(f, OfExecutor(executor))
  {
  }

  lemma {:induction false} TasksSelected(f: Rewrite, tasks: seq<TaskInfo>)
    ensures OfTasks(InTasks(f, tasks)) == InAll(f, OfTasks(tasks))
    decreases tasks
  {
    if tasks != [] {
      var own, executor := tasks[0].resources, OfExecutor(tasks[0].executor);
      TasksSelected(f, tasks[1..]);
      assert InTasks(f, tasks)[1..] == InTasks(f, tasks[1..]);
      ExecutorSelected(f, tasks[0].executor);
      InBoth(f, own, executor);
      InBoth(f, own + executor, OfTasks(tasks[1..]));
    }
  }

  /** A rewriting reaches every selected resource, in place and once. */
  lemma {:induction false} SelectedAreRewritten(f: Rewrite, op: Operation)
    ensures Selected(InOperation(f, op)) == InAll(f, Selected(op))
  {
    match op.kind
    case LAUNCH => TasksSelected(f, Mutable(op.launch, Launch([])).tasks);
    case LAUNCH_GROUP =>
      var m := Mutable(op.launchGroup, LaunchGroup(None, []));
      TasksSelected(f, m.tasks);
      ExecutorSelected(f, m.executor);
      InBoth(f, OfExecutor(m.executor), OfTasks(m.tasks));
    case _ =>
  }

  // ---------------------------------------------------------------- everything else

  predicate SameExecutor(a: Option<ExecutorInfo>, b: Option<ExecutorInfo>) {
    a.None? == b.None? && (a.Some? ==> a.value.content == b.value.content && |a.value.resources| == |b.value.resources|)
  }

  predicate SameTasks(a: seq<TaskInfo>, b: seq<TaskInfo>) {
    |a| == |b| && forall i | 0 <= i < |a| ::
      && a[i].content == b[i].content && |a[i].resources| == |b[i].resources|
      && SameExecutor(a[i].executor, b[i].executor)
  }

  /** The submessages the kind does not select are equal. */
  predicate SameOthers(a: Operation, b: Operation) {
    && a.kind == b.kind
    && (a.kind != LAUNCH ==> a.launch == b.launch)
    && (a.kind != LAUNCH_GROUP ==> a.launchGroup == b.launchGroup)
    && (a.kind != RESERVE ==> a.reserve == b.reserve)
    && (a.kind != UNRESERVE ==> a.unreserve == b.unreserve)
    && (a.kind != CREATE ==> a.create == b.create)
    && (a.kind != DESTROY ==> a.destroy == b.destroy)
    && (a.kind != GROW_VOLUME ==> a.growVolume == b.growVolume)
    && (a.kind != SHRINK_VOLUME ==> a.shrinkVolume == b.shrinkVolume)
    && (a.kind != CREATE_DISK ==> a.createDisk == b.createDisk)
    && (a.kind != DESTROY_DISK ==> a.destroyDisk == b.destroyDisk)
  }

  /** What the selected submessages hold beside the selected resources is equal. */
  predicate SameBesides(a: Operation, b: Operation)
    requires a.kind == b.kind
  {
    match a.kind
    case LAUNCH => SameTasks(Mutable(a.launch, Launch([])).tasks, Mutable(b.launch, Launch([])).tasks)
    case LAUNCH_GROUP =>
      var m, n := Mutable(a.launchGroup, LaunchGroup(None, [])), Mutable(b.launchGroup, LaunchGroup(None, []));
      SameExecutor(m.executor, n.executor) && SameTasks(m.tasks, n.tasks)
    case RESERVE => Mutable(a.reserve, Reserve([], [])).source == Mutable(b.reserve, Reserve([], [])).source
    case SHRINK_VOLUME => Mutable(a.shrinkVolume, Single(BLANK, 0)).content == Mutable(b.shrinkVolume, Single(BLANK, 0)).content
    case CREATE_DISK => Mutable(a.createDisk, Single(BLANK, 0)).content == Mutable(b.createDisk, Single(BLANK, 0)).content
    case DESTROY_DISK => Mutable(a.destroyDisk, Single(BLANK, 0)).content == Mutable(b.destroyDisk, Single(BLANK, 0)).content
    case _ => true
  }

  /** A rewriting changes nothing but the selected resources: neither the rest of their submessage nor any other one. */
  lemma {:induction false} NothingElseIsRewritten(f: Rewrite, op: Operation)
    ensures SameOthers(op, InOperation(f, op)) && SameBesides(op, InOperation(f, op))
  {
  }

  /** The submessage the kind selects is there. */
  predicate Present(op: Operation) {
    match op.kind
    case LAUNCH => op.launch.Some?
    case LAUNCH_GROUP => op.launchGroup.Some?
    case RESERVE => op.reserve.Some?
    case UNRESERVE => op.unreserve.Some?
    case CREATE => op.create.Some?
    case DESTROY => op.destroy.Some?
    case GROW_VOLUME => op.growVolume.Some?
    case SHRINK_VOLUME => op.shrinkVolume.Some?
    case CREATE_DISK => op.createDisk.Some?
    case DESTROY_DISK => op.destroyDisk.Some?
    case UNKNOWN => true
  }

  lemma {:induction false} TasksAreTheirParts(a: seq<TaskInfo>, b: seq<TaskInfo>)
    requires SameTasks(a, b) && OfTasks(a) == OfTasks(b)
    ensures a == b
    decreases a
  {
    if a != [] {
      var m, n := |a[0].resources|, |OfExecutor(a[0].executor)|;
      assert OfTasks(a)[..m] == a[0].resources && OfTasks(b)[..m] == b[0].resources;
      assert OfTasks(a)[m..m + n] == OfExecutor(a[0].executor) && OfTasks(b)[m..m + n] == OfExecutor(b[0].executor);
      assert OfTasks(a)[m + n..] == OfTasks(a[1..]) && OfTasks(b)[m + n..] == OfTasks(b[1..]);
      TasksAreTheirParts(a[1..], b[1..]);
      assert a == [a[0]] + a[1..] && b == [b[0]] + b[1..];
    }
  }

  lemma {:induction false} GroupIsItsParts(a: LaunchGroup, b: LaunchGroup)
    requires SameExecutor(a.executor, b.executor) && SameTasks(a.tasks, b.tasks)
    requires OfExecutor(a.executor) + OfTasks(a.tasks) == OfExecutor(b.executor) + OfTasks(b.tasks)
    ensures a == b
  {
    var own, n := OfExecutor(a.executor), |OfExecutor(a.executor)|;
    assert (own + OfTasks(a.tasks))[..n] == own && (own + OfTasks(a.tasks))[n..] == OfTasks(a.tasks);
    var own' := OfExecutor(b.executor);
    assert (own' + OfTasks(b.tasks))[..n] == own' && (own' + OfTasks(b.tasks))[n..] == OfTasks(b.tasks);
    TasksAreTheirParts(a.tasks, b.tasks);
  }

  /**
   Reaching exactly the selected resources and nothing else leaves no choice: an operation with the selected
   resources rewritten and the rest as it was, its submessage created, is what the rewriting gives.
   */
  lemma {:induction false} RewritingIsUnique(f: Rewrite, op: Operation, r: Operation)
    requires SameOthers(op, r) && SameBesides(op, r) && Present(r)
    requires Selected(r) == InAll(f, Selected(op))
    ensures r == InOperation(f, op)
  {
    SelectedAreRewritten(f, op);
    var r' := InOperation(f, op);
    if op.kind == LAUNCH {
      TasksAreTheirParts(r.launch.value.tasks, r'.launch.value.tasks);
    } else if op.kind == LAUNCH_GROUP {
      GroupIsItsParts(r.launchGroup.value, r'.launchGroup.value);
    } else {
      assert Selected(r) == Selected(r');
    }
  }

  /** Injecting after stripping gives every selected resource exactly the injected value. */
  lemma {:induction false} InjectAfterStrip(op: Operation, role: Role)
    ensures
      var resources := Selected(InOperation(Injected(role), InOperation(Stripped(), op)));
      && |resources| == |Selected(op)|
      && forall i | 0 <= i < |resources| :: resources[i] == Selected(op)[i].(allocation := Some(role))
  {
    SelectedAreRewritten(Stripped(), op);
    SelectedAreRewritten(Injected(role), InOperation(Stripped(), op));
  }
}
