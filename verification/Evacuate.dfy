/** Exclusive use of a CPU: tasks, affinity masks, and the list of saved masks. */
module Evacuate {
  import opened Options

  type Tid = nat
  type Mask = set<int>

  datatype Task = Task(pid: int, kthread: bool, parent: Option<Tid>, depth: nat, hasSignal: bool, session: int,
                       alive: bool, mask: Mask, refs: int, sigkilled: bool)

  /** An entry of `saved_affinities`. */
  datatype Saved = Saved(task: Tid, mask: Mask)

  /** All tasks, and the saved masks, newest first. */
  datatype State = State(tasks: map<Tid, Task>, saved: seq<Saved>)

  /** `set_cpus_allowed_ptr`: refused if no CPU of the mask is online. */
  function SetAllowed(s: State, t: Tid, mask: Mask, online: Mask): State
    requires t in s.tasks
  {
    if mask * online == {} then s
    else s.(tasks := s.tasks[t := s.tasks[t].(mask := mask)])
  }

  /** `save_task_affinity`; `ok` says whether its allocation succeeds. */
  function Save(s: State, t: Tid, ok: bool): State
    requires t in s.tasks
  {
    if !ok then s
    else State(s.tasks[t := s.tasks[t].(refs := s.tasks[t].refs + 1)], [Saved(t, s.tasks[t].mask)] + s.saved)
  }

  predicate PreserveMigrate(task: Task, t: Tid, current: Tid) {
    task.pid == 1 || task.kthread || t == current
  }

  /** The thread may run on `cpu` and on some other online CPU. */
  predicate Movable(task: Task, t: Tid, current: Tid, cpu: int, online: Mask) {
    !PreserveMigrate(task, t, current) && cpu in task.mask && (online - {cpu}) * task.mask != {}
  }

  /** The body of the loop in `migrateothers`, for one thread. */
  function MigrateOne(s: State, t: Tid, current: Tid, cpu: int, online: Mask, ok: bool): State
    requires t in s.tasks
  {
    if PreserveMigrate(s.tasks[t], t, current) || cpu !in s.tasks[t].mask then s
    else
      var target := (online - {cpu}) * s.tasks[t].mask;
      var s' := Save(s, t, ok);
      if target == {} then s' else SetAllowed(s', t, target, online)
  }

  /** `migrateothers` over the threads in the order of the task list. */
  function Migrate(s: State, order: seq<Tid>, current: Tid, cpu: int, online: Mask, failed: set<Tid>): (s': State)
    requires forall i :: 0 <= i < |order| ==> order[i] in s.tasks
    ensures s'.tasks.Keys == s.tasks.Keys
    decreases |order|
  {
    if order == [] then s else
    var m := Migrate(s, order[..|order| - 1], current, cpu, online, failed);
    var t := order[|order| - 1];
    MigrateOne(m, t, current, cpu, online, t !in failed)
  }

  /** The threads `migrateothers` moves. */
  ghost function Moved(tasks: map<Tid, Task>, order: seq<Tid>, current: Tid, cpu: int, online: Mask): set<Tid>
    requires forall i :: 0 <= i < |order| ==> order[i] in tasks
  {
    set t | && t in order && tasks[t].pid != 1 && !tasks[t].kthread && t != current
            && cpu in tasks[t].mask && (online - {cpu}) * tasks[t].mask != {}
  }

  /** Restore the newest entry and drop it. */
  function RestoreOne(s: State, online: Mask): (s': State)
    requires s.saved != [] && s.saved[0].task in s.tasks
    ensures s'.tasks.Keys == s.tasks.Keys && s'.saved == s.saved[1..]
  {
    var e := s.saved[0];
    var s1 := if s.tasks[e.task].alive then SetAllowed(s, e.task, e.mask, online) else s;
    State(s1.tasks[e.task := s1.tasks[e.task].(refs := s1.tasks[e.task].refs - 1)], s.saved[1..])
  }

  predicate Listed(s: State) {
    forall i :: 0 <= i < |s.saved| ==> s.saved[i].task in s.tasks
  }

  /** `restore_saved_affinities`: newest entry first, until the list is empty. */
  function Drain(s: State, online: Mask): (s': State)
    requires Listed(s)
    ensures s'.saved == [] && s'.tasks.Keys == s.tasks.Keys
    decreases |s.saved|
  {
    if s.saved == [] then s else Drain(RestoreOne(s, online), online)
  }

  /** Parents are known tasks, and following them ends. */
  predicate Forest(tasks: map<Tid, Task>) {
    forall t :: t in tasks && tasks[t].parent.Some? ==>
      tasks[t].parent.value in tasks && tasks[tasks[t].parent.value].depth < tasks[t].depth
  }

  /** The task reached from `t` in `k` steps to the parent. */
  function NthParent(tasks: map<Tid, Task>, t: Tid, k: nat): (u: Option<Tid>)
    requires Forest(tasks) && t in tasks
    ensures u.Some? ==> u.value in tasks
  {
    if k == 0 then Some(t) else
    var child := NthParent(tasks, t, k - 1);
    if child.None? then None else tasks[child.value].parent
  }

  /** That task exists and is neither init nor the idle task. */
  predicate BelowInit(tasks: map<Tid, Task>, t: Tid, k: nat)
    requires Forest(tasks) && t in tasks
  {
    var u := NthParent(tasks, t, k);
    u.Some? && tasks[u.value].pid > 1
  }

  /** `a` is `t` or an ancestor of it, and no task on the way is init. */
  ghost predicate Ancestor(tasks: map<Tid, Task>, a: Tid, t: Tid)
    requires Forest(tasks) && t in tasks
  {
    exists k: nat :: NthParent(tasks, t, k) == Some(a) && forall j: nat :: j <= k ==> BelowInit(tasks, t, j)
  }

  predicate SessionMates(task: Task, task': Task) {
    task.hasSignal && task'.hasSignal && task.session == task'.session
  }

  /** Policies 0 and 1 spare init, kernel threads, the caller, its ancestors
      below init, and the members of its session. */
  ghost predicate Spared(tasks: map<Tid, Task>, t: Tid, current: Tid)
    requires Forest(tasks) && t in tasks && current in tasks
  {
    || PreserveMigrate(tasks[t], t, current)
    || Ancestor(tasks, t, current)
    || SessionMates(tasks[t], tasks[current])
  }

  /** The threads of the task list that `killothers` counts. */
  ghost function Victims(tasks: map<Tid, Task>, order: seq<Tid>, current: Tid, policy: int): (v: seq<Tid>)
    requires Forest(tasks) && current in tasks && forall i :: 0 <= i < |order| ==> order[i] in tasks
    ensures forall t :: t in v <==> t in order && (policy >= 2 || !Spared(tasks, t, current))
    decreases |order|
  {
    if order == [] then [] else
    var t := order[|order| - 1];
    var v := Victims(tasks, order[..|order| - 1], current, policy);
    assert order == order[..|order| - 1] + [t];
    if policy < 2 && Spared(tasks, t, current) then v else v + [t]
  }

  function Signal(s: State, victims: seq<Tid>): (s': State)
    ensures s'.saved == s.saved
  {
    s.(tasks := map t | t in s.tasks :: if t in victims then s.tasks[t].(sigkilled := true) else s.tasks[t])
  }

  const EINVAL := 22
  const ENOMEM := 12

  /** What one call of `acquire_exclusive_cpu` depends on: the caller and the
      CPU it runs on, `killifneeded`, whether its two CPU masks can be allocated,
      the task list, the tasks whose save fails, and the result of raising the
      caller's priority. */
  datatype Request = Request(current: Tid, cpu: int, policy: int, masks: bool, order: seq<Tid>, failed: set<Tid>,
                             prioRc: int)

  ghost predicate IsTaskList(s: State, order: seq<Tid>) {
    && (forall t :: t in order <==> t in s.tasks && s.tasks[t].alive)
    && (forall i, j :: 0 <= i < j < |order| ==> order[i] != order[j])
  }

  /** What the source takes for granted of a call. */
  ghost predicate Callable(s: State, r: Request) {
    && Listed(s) && Forest(s.tasks) && IsTaskList(s, r.order)
    && r.current in s.tasks && s.tasks[r.current].alive
  }

  lemma OrderInTasks(s: State, order: seq<Tid>)
    requires IsTaskList(s, order)
    ensures forall i :: 0 <= i < |order| ==> order[i] in s.tasks
  {
    forall i | 0 <= i < |order| ensures order[i] in s.tasks {
      assert order[i] in order;
    }
  }

  /** Step 1 of an acquire: save and pin the caller. */
  function Pin(s: State, r: Request, online: Mask): (s': State)
    requires r.current in s.tasks
    ensures s'.tasks.Keys == s.tasks.Keys
    ensures forall t :: t in s.tasks ==> s'.tasks[t].(mask := {}, refs := 0) == s.tasks[t].(mask := {}, refs := 0)
  {
    SetAllowed(Save(s, r.current, r.current !in r.failed), r.current, {r.cpu}, online)
  }

  /** Step 2: with one CPU kill the others or refuse; with more, migrate them. */
  ghost function Evict(s: State, r: Request, online: Mask): (o: (State, bool))
    requires Callable(s, r)
    ensures o.0.tasks.Keys == s.tasks.Keys
  {
    OrderInTasks(s, r.order);
    var s1 := Pin(s, r, online);
    if |online| == 1 then
      var victims := Victims(s1.tasks, r.order, r.current, r.policy);
      (if r.policy > 0 then Signal(s1, victims) else s1, r.policy != 0 || victims == [])
    else
      (Migrate(s1, r.order, r.current, r.cpu, online, r.failed), true)
  }

  lemma {:induction false} MigrateListed(s: State, order: seq<Tid>, current: Tid, cpu: int, online: Mask,
                                         failed: set<Tid>)
    requires Listed(s) && forall i :: 0 <= i < |order| ==> order[i] in s.tasks
    ensures Listed(Migrate(s, order, current, cpu, online, failed))
    decreases |order|
  {
    if order == [] {
    } else {
      MigrateListed(s, order[..|order| - 1], current, cpu, online, failed);
    }
  }

  lemma EvictListed(s: State, r: Request, online: Mask)
    requires Callable(s, r)
    ensures Listed(Evict(s, r, online).0)
  {
    OrderInTasks(s, r.order);
    MigrateListed(Pin(s, r, online), r.order, r.current, r.cpu, online, r.failed);
  }

  /** `acquire_exclusive_cpu`: any failure drains the whole list. */
  ghost function Acquire(s: State, r: Request, online: Mask): (o: (State, int))
    requires Callable(s, r)
    ensures o.0.tasks.Keys == s.tasks.Keys
  {
    if r.cpu !in online then (Drain(s, online), -EINVAL) else
    if !r.masks then (Drain(s, online), -ENOMEM) else
    var (s', ok) := Evict(s, r, online);
    assert Listed(s') by { EvictListed(s, r, online); }
    if !ok then (Drain(s', online), -EINVAL)
    else if r.prioRc != 0 then (Drain(s', online), r.prioRc)
    else (s', 0)
  }

  /** The masks saved for `t`, newest first. */
  function Entries(saved: seq<Saved>, t: Tid): seq<Mask> {
    if saved == [] then []
    else (if saved[0].task == t then [saved[0].mask] else []) + Entries(saved[1..], t)
  }

  // ---- The code -----------------------------------------------------------

  /** The two differ in masks, references and signals only. */
  ghost predicate SameKin(tasks: map<Tid, Task>, tasks': map<Tid, Task>) {
    && tasks.Keys == tasks'.Keys
    && forall t :: t in tasks ==> tasks'[t] == tasks[t].(mask := tasks'[t].mask, refs := tasks'[t].refs,
                                                         sigkilled := tasks'[t].sigkilled)
  }

  lemma {:induction false} NthParentSame(tasks: map<Tid, Task>, tasks': map<Tid, Task>, t: Tid, k: nat)
    requires Forest(tasks) && Forest(tasks') && SameKin(tasks, tasks') && t in tasks
    ensures NthParent(tasks', t, k) == NthParent(tasks, t, k)
  {
    if k == 0 {
    } else {
      NthParentSame(tasks, tasks', t, k - 1);
    }
  }

  lemma SparedSame(tasks: map<Tid, Task>, tasks': map<Tid, Task>, t: Tid, current: Tid)
    requires Forest(tasks) && Forest(tasks') && SameKin(tasks, tasks') && t in tasks && current in tasks
    ensures Spared(tasks', t, current) == Spared(tasks, t, current)
  {
    forall k: nat
      ensures NthParent(tasks', current, k) == NthParent(tasks, current, k)
      ensures BelowInit(tasks', current, k) == BelowInit(tasks, current, k)
    {
      NthParentSame(tasks, tasks', current, k);
    }
  }

  /** Threads already moved are off the CPU; the others have the masks they had. */
  ghost predicate MovedSoFar(tasks: map<Tid, Task>, tasks': map<Tid, Task>, moved: set<Tid>, cpu: int) {
    && SameKin(tasks, tasks')
    && forall t :: t in tasks ==> if t in moved then cpu !in tasks'[t].mask else tasks'[t].mask == tasks[t].mask
  }

  lemma MovedGrows(tasks: map<Tid, Task>, order: seq<Tid>, t: Tid, current: Tid, cpu: int, online: Mask)
    requires t in tasks && forall i :: 0 <= i < |order| ==> order[i] in tasks
    ensures var moved := Moved(tasks, order, current, cpu, online);
            Moved(tasks, order + [t], current, cpu, online) ==
            if Movable(tasks[t], t, current, cpu, online) then moved + {t} else moved
  {
  }

  lemma MigrateOneTask(s: State, t: Tid, current: Tid, cpu: int, online: Mask, ok: bool)
    requires t in s.tasks
    ensures var task, s' := s.tasks[t], MigrateOne(s, t, current, cpu, online, ok);
            && s'.tasks == s.tasks[t := s'.tasks[t]]
            && s'.tasks[t] == task.(mask := s'.tasks[t].mask, refs := s'.tasks[t].refs)
            && s'.tasks[t].mask ==
               if Movable(task, t, current, cpu, online) then (online - {cpu}) * task.mask else task.mask
  {
    var target := (online - {cpu}) * s.tasks[t].mask;
    assert target * online == target;
  }

  lemma MovedUpdate(tasks: map<Tid, Task>, tasks': map<Tid, Task>, moved: set<Tid>, cpu: int, t: Tid, task: Task)
    requires MovedSoFar(tasks, tasks', moved, cpu) && t in tasks
    requires task == tasks'[t].(mask := task.mask, refs := task.refs)
    ensures cpu !in task.mask ==> MovedSoFar(tasks, tasks'[t := task], moved + {t}, cpu)
    ensures task.mask == tasks'[t].mask ==> MovedSoFar(tasks, tasks'[t := task], moved, cpu)
  {
  }

  /** One more thread: it counts unless it was moved before or cannot be. */
  lemma MovedOneMore(tasks: map<Tid, Task>, s: State, order: seq<Tid>, t: Tid, current: Tid, cpu: int, online: Mask,
                     ok: bool)
    requires t in tasks && forall i :: 0 <= i < |order| ==> order[i] in tasks
    requires MovedSoFar(tasks, s.tasks, Moved(tasks, order, current, cpu, online), cpu)
    ensures var moved := Moved(tasks, order, current, cpu, online);
            var moved' := Moved(tasks, order + [t], current, cpu, online);
            && MovedSoFar(tasks, MigrateOne(s, t, current, cpu, online, ok).tasks, moved', cpu)
            && |moved'| == |moved| + if Movable(s.tasks[t], t, current, cpu, online) then 1 else 0
  {
    var moved := Moved(tasks, order, current, cpu, online);
    MovedGrows(tasks, order, t, current, cpu, online);
    MigrateOneTask(s, t, current, cpu, online, ok);
    MovedUpdate(tasks, s.tasks, moved, cpu, t, MigrateOne(s, t, current, cpu, online, ok).tasks[t]);
    if t in moved {
      assert moved + {t} == moved;
    } else {
      assert Movable(tasks[t], t, current, cpu, online) == Movable(s.tasks[t], t, current, cpu, online);
    }
  }

  lemma SignalKeepsKin(s: State, victims: seq<Tid>)
    requires Forest(s.tasks)
    ensures SameKin(s.tasks, Signal(s, victims).tasks) && Forest(Signal(s, victims).tasks)
  {
  }

  lemma SignalOneMore(s: State, victims: seq<Tid>, t: Tid)
    requires t in s.tasks
    ensures var m := Signal(s, victims);
            Signal(s, victims + [t]) == m.(tasks := m.tasks[t := m.tasks[t].(sigkilled := true)])
  {
    var m := Signal(s, victims);
    assert Signal(s, victims + [t]).tasks == m.tasks[t := m.tasks[t].(sigkilled := true)];
  }

  class Evacuator {
    const online: Mask
    var tasks: map<Tid, Task>
    var saved: seq<Saved>          // saved_affinities, newest first

    ghost function Now(): State
      reads this
    {
      State(tasks, saved)
    }

    method SetCpusAllowed(t: Tid, mask: Mask)
      requires t in tasks
      modifies `tasks
      ensures Now() == SetAllowed(old(Now()), t, mask, online)
    {
      if mask * online != {} {
        tasks := tasks[t := tasks[t].(mask := mask)];
      }
    }

    method SaveTaskAffinity(t: Tid, ok: bool) returns (rc: int)
      requires t in tasks
      modifies this
      ensures Now() == Save(old(Now()), t, ok)
      ensures rc == if ok then 0 else -12
    {
      if !ok {
        return -ENOMEM;
      }
      var mask := tasks[t].mask;
      tasks := tasks[t := tasks[t].(refs := tasks[t].refs + 1)];
      saved := [Saved(t, mask)] + saved;
      rc := 0;
    }

    /** The loop body of `restore_saved_affinities`. */
    method RestoreNewest()
      requires saved != [] && saved[0].task in tasks
      modifies this
      ensures Now() == RestoreOne(old(Now()), online)
    {
      var ta := saved[0];
      if tasks[ta.task].alive {
        SetCpusAllowed(ta.task, ta.mask);
      }
      tasks := tasks[ta.task := tasks[ta.task].(refs := tasks[ta.task].refs - 1)];
      saved := saved[1..];
    }

    /** Returns 0 exactly when the caller was on the list. */
    method RestoreSavedAffinities(current: Tid) returns (rc: int)
      requires Listed(Now())
      modifies this
      ensures Now() == Drain(old(Now()), online)
      ensures rc == if Entries(old(saved), current) != [] then 0 else -1
    {
      rc := -1;
      while saved != []
        invariant Listed(Now())
        invariant Drain(Now(), online) == Drain(old(Now()), online)
        invariant rc == 0 || rc == -1
        invariant rc == 0 || Entries(saved, current) != [] <==> Entries(old(saved), current) != []
        decreases |saved|
      {
        if saved[0].task == current {
          rc := 0;
        }
        RestoreNewest();
      }
    }

    /** `is_ancestor`: walk the parents of the caller down to init. */
    method IsAncestor(t: Tid, current: Tid) returns (b: bool)
      requires Forest(tasks) && current in tasks
      ensures b <==> Ancestor(tasks, t, current)
    {
      var u := Some(current);
      ghost var k := 0;
      while u.Some? && tasks[u.value].pid > 1
        invariant u == NthParent(tasks, current, k)
        invariant forall j: nat :: j < k ==> BelowInit(tasks, current, j) && NthParent(tasks, current, j) != Some(t)
        decreases if u.Some? then tasks[u.value].depth + 1 else 0
      {
        if u.value == t {
          return true;
        }
        u := tasks[u.value].parent;
        k := k + 1;
      }
      assert !BelowInit(tasks, current, k);
      b := false;
    }

    method ShouldPreserveKill(t: Tid, current: Tid) returns (b: bool)
      requires Forest(tasks) && t in tasks && current in tasks
      ensures b == Spared(tasks, t, current)
    {
      if PreserveMigrate(tasks[t], t, current) {
        return true;
      }
      b := IsAncestor(t, current);
      if b {
        return true;
      }
      b := SessionMates(tasks[t], tasks[current]);
    }

    /** `killothers`. */
    method KillOthers(order: seq<Tid>, current: Tid, policy: int) returns (killed: nat)
      requires Forest(tasks) && current in tasks && forall i :: 0 <= i < |order| ==> order[i] in tasks
      modifies `tasks
      ensures var victims := Victims(old(tasks), order, current, policy);
              && killed == |victims|
              && Now() == if policy > 0 then Signal(old(Now()), victims) else old(Now())
    {
      killed := 0;
      ghost var start := Now();
      ghost var victims: seq<Tid> := [];
      assert Signal(start, []).tasks == start.tasks;
      for i := 0 to |order|
        invariant saved == start.saved && victims == Victims(start.tasks, order[..i], current, policy)
        invariant killed == |victims|
        invariant tasks == if policy > 0 then Signal(start, victims).tasks else start.tasks
      {
        SignalKeepsKin(start, victims);
        SparedSame(start.tasks, tasks, order[i], current);
        assert order[..i + 1][..i] == order[..i];
        var spared := false;
        if policy < 2 {
          spared := ShouldPreserveKill(order[i], current);
        }
        if !spared {
          if policy > 0 {
            SignalOneMore(start, victims, order[i]);
            tasks := tasks[order[i] := tasks[order[i]].(sigkilled := true)];
          }
          killed := killed + 1;
          victims := victims + [order[i]];
        }
      }
      assert order[..|order|] == order;
    }

    /** The loop body of `migrateothers`. */
    method MigrateThread(cpu: int, t: Tid, current: Tid, failed: set<Tid>, migrated: nat) returns (migrated': nat)
      requires t in tasks
      modifies this
      ensures Now() == MigrateOne(old(Now()), t, current, cpu, online, t !in failed)
      ensures migrated' == if Movable(old(tasks[t]), t, current, cpu, online) then migrated + 1 else migrated
    {
      migrated' := migrated;
      if !PreserveMigrate(tasks[t], t, current) && cpu in tasks[t].mask {
        var rc := SaveTaskAffinity(t, t !in failed);
        var target := (online - {cpu}) * tasks[t].mask;
        if target != {} {
          SetCpusAllowed(t, target);
          migrated' := migrated + 1;
        }
      }
    }

    /** `migrateothers`. */
    method MigrateOthers(cpu: int, order: seq<Tid>, current: Tid, failed: set<Tid>) returns (migrated: nat)
      requires forall i :: 0 <= i < |order| ==> order[i] in tasks
      modifies this
      ensures Now() == Migrate(old(Now()), order, current, cpu, online, failed)
      ensures migrated == |Moved(old(tasks), order, current, cpu, online)|
    {
      migrated := 0;
      for i := 0 to |order|
        invariant tasks.Keys == old(tasks).Keys
        invariant Now() == Migrate(old(Now()), order[..i], current, cpu, online, failed)
        invariant MovedSoFar(old(tasks), tasks, Moved(old(tasks), order[..i], current, cpu, online), cpu)
        invariant migrated == |Moved(old(tasks), order[..i], current, cpu, online)|
      {
        assert order[..i + 1] == order[..i] + [order[i]];
        MovedOneMore(old(tasks), Now(), order[..i], order[i], current, cpu, online, order[i] !in failed);
        migrated := MigrateThread(cpu, order[i], current, failed, migrated);
      }
      assert order[..|order|] == order;
    }

    /** `acquire_exclusive_cpu`. */
    method AcquireExclusiveCpu(r: Request) returns (rc: int)
      requires Callable(Now(), r)
      modifies this
      ensures (Now(), rc) == Acquire(old(Now()), r, online)
    {
      OrderInTasks(Now(), r.order);
      rc := 0;
      if r.cpu !in online {
        rc := -EINVAL;
      } else if !r.masks {
        rc := -ENOMEM;
      } else {
        var saveRc := SaveTaskAffinity(r.current, r.current !in r.failed);
        SetCpusAllowed(r.current, {r.cpu});
        EvictListed(old(Now()), r, online);
        if |online| == 1 {
          var mkcnt := KillOthers(r.order, r.current, r.policy);
          if r.policy == 0 && mkcnt > 0 {
            rc := -EINVAL;
          }
        } else {
          var mkcnt := MigrateOthers(r.cpu, r.order, r.current, r.failed);
        }
        if rc == 0 {
          rc := r.prioRc;
        }
      }
      if rc != 0 {
        var found := RestoreSavedAffinities(r.current);
      }
    }

    /** `release_exclusive_cpu`: drains the list for everyone. */
    method ReleaseExclusiveCpu(current: Tid)
      requires Listed(Now())
      modifies this
      ensures Now() == Drain(old(Now()), online)
    {
      var rc := RestoreSavedAffinities(current);
    }
  }
}
