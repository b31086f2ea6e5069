/** What holds over runs of acquires, releases and task exits: masks come back,
    references are conserved, and a held CPU stays exclusive. */
module EvacuateRuns {
  import opened Options
  import opened Evacuate

  // ---- One task at a time -------------------------------------------------

  /** Everything the protocol knows about one task. */
  datatype View = View(task: Task, entries: seq<Mask>)

  function ViewOf(s: State, t: Tid): View
    requires t in s.tasks
  {
    View(s.tasks[t], Entries(s.saved, t))
  }

  /** The mask a task had when nothing was saved for it: its oldest saved mask,
      or its present one. */
  function Base(v: View): Mask {
    if v.entries == [] then v.task.mask else v.entries[|v.entries| - 1]
  }

  /** References held by the list do not count towards a task's own. */
  function OwnRefs(v: View): int {
    v.task.refs - |v.entries|
  }

  lemma EntriesOfCons(e: Saved, saved: seq<Saved>, t: Tid)
    ensures Entries([e] + saved, t) == (if e.task == t then [e.mask] else []) + Entries(saved, t)
  {
    assert ([e] + saved)[1..] == saved;
  }

  /** `migrateothers` as seen by one thread of the task list. */
  function MigrateView(v: View, exempt: bool, cpu: int, online: Mask, ok: bool): View {
    if exempt || cpu !in v.task.mask then v
    else
      var target := (online - {cpu}) * v.task.mask;
      View(v.task.(mask := if target == {} then v.task.mask else target,
                   refs := if ok then v.task.refs + 1 else v.task.refs),
           if ok then [v.task.mask] + v.entries else v.entries)
  }

  lemma MigrateOneView(s: State, u: Tid, current: Tid, cpu: int, online: Mask, ok: bool, t: Tid)
    requires u in s.tasks && t in s.tasks
    ensures var s' := MigrateOne(s, u, current, cpu, online, ok);
            ViewOf(s', t) ==
              if t == u then MigrateView(ViewOf(s, t), PreserveMigrate(s.tasks[t], t, current), cpu, online, ok)
              else ViewOf(s, t)
  {
    EntriesOfCons(Saved(u, s.tasks[u].mask), s.saved, t);
    var target := (online - {cpu}) * s.tasks[u].mask;
    assert target * online == target;
  }

  /** Each thread is treated once, whatever the order of the task list. */
  lemma {:induction false} MigrateIsPointwise(s: State, order: seq<Tid>, current: Tid, cpu: int, online: Mask,
                                              failed: set<Tid>, t: Tid)
    requires forall i :: 0 <= i < |order| ==> order[i] in s.tasks
    requires forall i, j :: 0 <= i < j < |order| ==> order[i] != order[j]
    requires t in s.tasks
    ensures ViewOf(Migrate(s, order, current, cpu, online, failed), t) ==
              if t in order
              then MigrateView(ViewOf(s, t), PreserveMigrate(s.tasks[t], t, current), cpu, online, t !in failed)
              else ViewOf(s, t)
    decreases |order|
  {
    if order == [] {
    } else {
      var init, u := order[..|order| - 1], order[|order| - 1];
      assert order == init + [u];
      MigrateIsPointwise(s, init, current, cpu, online, failed, t);
      var m := Migrate(s, init, current, cpu, online, failed);
      MigrateOneView(m, u, current, cpu, online, u !in failed, t);
    }
  }

  /** Walking a task's entries newest first applies the oldest one last. */
  function DrainTask(v: View, online: Mask): Task
    decreases |v.entries|
  {
    if v.entries == [] then v.task
    else
      var e := v.entries[0];
      var task := if v.task.alive && e * online != {} then v.task.(mask := e) else v.task;
      DrainTask(View(task.(refs := task.refs - 1), v.entries[1..]), online)
  }

  lemma {:induction false} DrainIsPointwise(s: State, online: Mask, t: Tid)
    requires Listed(s) && t in s.tasks
    ensures Drain(s, online).tasks[t] == DrainTask(ViewOf(s, t), online)
    decreases |s.saved|
  {
    if s.saved == [] {
    } else {
      DrainIsPointwise(RestoreOne(s, online), online, t);
      if s.saved[0].task == t {
        assert Entries(s.saved, t) == [s.saved[0].mask] + Entries(s.saved[1..], t);
        assert Entries(s.saved, t)[1..] == Entries(s.saved[1..], t);
      } else {
        assert Entries(s.saved, t) == Entries(s.saved[1..], t);
      }
    }
  }

  ghost predicate Restorable(entries: seq<Mask>, online: Mask) {
    forall i :: 0 <= i < |entries| ==> entries[i] * online != {}
  }

  lemma {:induction false} DrainTaskRestoresBase(v: View, online: Mask)
    requires Restorable(v.entries, online)
    ensures DrainTask(v, online) ==
            v.task.(refs := OwnRefs(v), mask := if v.task.alive then Base(v) else v.task.mask)
    decreases |v.entries|
  {
    if v.entries == [] {
    } else {
      var e := v.entries[0];
      var task := if v.task.alive && e * online != {} then v.task.(mask := e) else v.task;
      DrainTaskRestoresBase(View(task.(refs := task.refs - 1), v.entries[1..]), online);
    }
  }

  /** With any masks saved: a live task ends with the oldest one that has an
      online CPU, or as it was if none has. */
  lemma {:induction false} DrainTaskInGeneral(v: View, online: Mask, k: nat)
    requires k <= |v.entries| && (k < |v.entries| ==> v.entries[k] * online != {})
    requires forall j :: k < j < |v.entries| ==> v.entries[j] * online == {}
    requires k == |v.entries| ==> forall j :: 0 <= j < k ==> v.entries[j] * online == {}
    ensures DrainTask(v, online).mask == if v.task.alive && k < |v.entries| then v.entries[k] else v.task.mask
    decreases |v.entries|
  {
    if v.entries == [] {
    } else {
      var e := v.entries[0];
      var task := if v.task.alive && e * online != {} then v.task.(mask := e) else v.task;
      var rest := View(task.(refs := task.refs - 1), v.entries[1..]);
      DrainTaskInGeneral(rest, online, if k == 0 then |rest.entries| else k - 1);
    }
  }

  /** Every saved mask has an online CPU, so it can be restored. */
  ghost predicate SavedOnline(saved: seq<Saved>, online: Mask) {
    forall i :: 0 <= i < |saved| ==> saved[i].mask * online != {}
  }

  ghost predicate Inv(s: State, online: Mask) {
    Listed(s) && Forest(s.tasks) && SavedOnline(s.saved, online)
  }

  lemma {:induction false} EntriesRestorable(saved: seq<Saved>, online: Mask, t: Tid)
    requires SavedOnline(saved, online)
    ensures Restorable(Entries(saved, t), online)
    decreases |saved|
  {
    if saved == [] {
    } else {
      EntriesRestorable(saved[1..], online, t);
    }
  }

  /** A drain puts every live task back to its base mask, returns every
      reference the list held, and empties the list. */
  lemma DrainRestores(s: State, online: Mask, t: Tid)
    requires Inv(s, online) && t in s.tasks
    ensures var s' := Drain(s, online);
            && s'.saved == []
            && s'.tasks[t] == s.tasks[t].(refs := OwnRefs(ViewOf(s, t)),
                                          mask := if s.tasks[t].alive then Base(ViewOf(s, t)) else s.tasks[t].mask)
  {
    EntriesRestorable(s.saved, online, t);
    DrainIsPointwise(s, online, t);
    DrainTaskRestoresBase(ViewOf(s, t), online);
  }

  /** How evicting may change one task: its mask shrinks but not to nothing,
      and the old mask is saved first unless that save fails. */
  ghost predicate Shrinks(v: View, v': View, saveFails: bool) {
    && v'.task == v.task.(mask := v'.task.mask, refs := v'.task.refs, sigkilled := v'.task.sigkilled)
    && OwnRefs(v') == OwnRefs(v)
    && v'.task.mask <= v.task.mask && (v.task.mask != {} ==> v'.task.mask != {})
    && (v'.entries == v.entries || v'.entries == [v.task.mask] + v.entries)
    && (saveFails ==> v'.entries == v.entries)
    && (!saveFails && v'.entries == v.entries ==> v'.task.mask == v.task.mask)
  }

  lemma PinView(s: State, r: Request, online: Mask, t: Tid)
    requires r.current in s.tasks && r.cpu in online && t in s.tasks
    ensures var v, v' := ViewOf(s, t), ViewOf(Pin(s, r, online), t);
            if t == r.current then
              && v'.task == v.task.(mask := {r.cpu}, refs := v'.task.refs)
              && v' == if t in r.failed then View(v.task.(mask := {r.cpu}), v.entries)
                       else View(v.task.(mask := {r.cpu}, refs := v.task.refs + 1), [v.task.mask] + v.entries)
            else v' == v
  {
    EntriesOfCons(Saved(r.current, s.tasks[r.current].mask), s.saved, t);
    assert r.cpu in {r.cpu} * online;
  }

  lemma MigrateViewShrinks(v: View, exempt: bool, cpu: int, online: Mask, ok: bool)
    ensures Shrinks(v, MigrateView(v, exempt, cpu, online, ok), !ok)
  {
  }

  /** With one CPU the other tasks keep their masks. */
  lemma EvictViewOneCpu(s: State, r: Request, online: Mask, t: Tid)
    requires Callable(s, r) && r.cpu in online && t in s.tasks && |online| == 1
    ensures var v1, v' := ViewOf(Pin(s, r, online), t), ViewOf(Evict(s, r, online).0, t);
            v' == View(v1.task.(sigkilled := v'.task.sigkilled), v1.entries)
  {
  }

  /** With several CPUs each task on the list is treated by `migrateothers`. */
  lemma EvictViewManyCpus(s: State, r: Request, online: Mask, t: Tid)
    requires Callable(s, r) && r.cpu in online && t in s.tasks && |online| != 1
    ensures var v1, v' := ViewOf(Pin(s, r, online), t), ViewOf(Evict(s, r, online).0, t);
            v' == if t in r.order
                  then MigrateView(v1, PreserveMigrate(s.tasks[t], t, r.current), r.cpu, online, t !in r.failed)
                  else v1
  {
    OrderInTasks(s, r.order);
    var s1 := Pin(s, r, online);
    assert s1.tasks[t].(mask := {}, refs := 0) == s.tasks[t].(mask := {}, refs := 0);
    MigrateIsPointwise(s1, r.order, r.current, r.cpu, online, r.failed, t);
  }

  /** An acquire, as one task sees it up to its success. */
  lemma EvictView(s: State, r: Request, online: Mask, t: Tid)
    requires Callable(s, r) && r.cpu in online && t in s.tasks
    requires r.cpu in s.tasks[r.current].mask
    ensures var v, v' := ViewOf(s, t), ViewOf(Evict(s, r, online).0, t);
            && Shrinks(v, v', t in r.failed)
            && (t == r.current ==> v'.task.mask == {r.cpu})
            && (t != r.current && |online| != 1 ==>
                v' == if t in r.order
                      then MigrateView(v, PreserveMigrate(s.tasks[t], t, r.current), r.cpu, online, t !in r.failed)
                      else v)
  {
    PinView(s, r, online, t);
    if |online| == 1 {
      EvictViewOneCpu(s, r, online, t);
    } else {
      EvictViewManyCpus(s, r, online, t);
      MigrateViewShrinks(ViewOf(s, t), PreserveMigrate(s.tasks[t], t, r.current), r.cpu, online, t !in r.failed);
    }
  }

  /** Before an acquire: it will not change the mask of `t`. */
  ghost predicate MaskStays(s: State, r: Request, online: Mask, t: Tid)
    requires t in s.tasks
  {
    var task := s.tasks[t];
    if t == r.current then task.mask == {r.cpu}
    else
      || |online| == 1 || !task.alive || task.pid == 1 || task.kthread
      || r.cpu !in task.mask || (online - {r.cpu}) * task.mask == {}
  }

  /** Before an acquire: it will change the mask of `t` without a record. */
  ghost predicate Unrecorded(s: State, r: Request, online: Mask, t: Tid)
    requires t in s.tasks
  {
    t in r.failed && Entries(s.saved, t) == [] && !MaskStays(s, r, online, t)
  }

  lemma MaskStaysIff(s: State, r: Request, online: Mask, t: Tid)
    requires Callable(s, r) && r.cpu in online && t in s.tasks
    requires r.cpu in s.tasks[r.current].mask
    ensures var mask, mask' := s.tasks[t].mask, Evict(s, r, online).0.tasks[t].mask;
            && (mask' == mask <==> MaskStays(s, r, online, t))
            && (mask' != mask ==> mask' == if t == r.current then {r.cpu} else mask * online - {r.cpu})
  {
    EvictView(s, r, online, t);
    if |online| == 1 && t != r.current {
      PinView(s, r, online, t);
      EvictViewOneCpu(s, r, online, t);
    }
  }

  /** Evicting keeps a task's base mask exactly when its save succeeds, or an
      older save exists, or its mask is one that stays; otherwise it shrinks. */
  lemma EvictKeepsBaseIff(s: State, r: Request, online: Mask, t: Tid)
    requires Callable(s, r) && r.cpu in online && t in s.tasks
    requires r.cpu in s.tasks[r.current].mask
    ensures var v, v' := ViewOf(s, t), ViewOf(Evict(s, r, online).0, t);
            && Base(v') <= Base(v)
            && (Base(v') == Base(v) <==> !Unrecorded(s, r, online, t))
  {
    EvictView(s, r, online, t);
    MaskStaysIff(s, r, online, t);
  }

  /** Whose mask an acquire records, with a reference: the caller's, and that of
      every live user task but init that may run on the CPU, stuck there or not,
      each if its save succeeds. */
  lemma RecordedExactly(s: State, r: Request, online: Mask, t: Tid)
    requires Callable(s, r) && r.cpu in online && t in s.tasks
    ensures var task, s' := s.tasks[t], Evict(s, r, online).0;
            var recorded := && t !in r.failed
                            && (|| t == r.current
                                || (&& |online| != 1 && task.alive && task.pid != 1 && !task.kthread
                                    && r.cpu in task.mask));
            && Entries(s'.saved, t) == (if recorded then [task.mask] else []) + Entries(s.saved, t)
            && s'.tasks[t].refs == task.refs + if recorded then 1 else 0
  {
    PinView(s, r, online, t);
    if |online| == 1 {
      EvictViewOneCpu(s, r, online, t);
    } else {
      EvictViewManyCpus(s, r, online, t);
    }
  }

  lemma {:induction false} MigrateSavedOnline(s: State, order: seq<Tid>, current: Tid, cpu: int, online: Mask,
                                              failed: set<Tid>)
    requires forall i :: 0 <= i < |order| ==> order[i] in s.tasks
    requires SavedOnline(s.saved, online) && cpu in online
    ensures SavedOnline(Migrate(s, order, current, cpu, online, failed).saved, online)
    decreases |order|
  {
    if order == [] {
    } else {
      MigrateSavedOnline(s, order[..|order| - 1], current, cpu, online, failed);
      var m := Migrate(s, order[..|order| - 1], current, cpu, online, failed);
      var t := order[|order| - 1];
      assert cpu in m.tasks[t].mask ==> cpu in m.tasks[t].mask * online;
    }
  }

  lemma EvictInv(s: State, r: Request, online: Mask)
    requires Callable(s, r) && r.cpu in online && Inv(s, online)
    requires r.cpu in s.tasks[r.current].mask
    ensures Inv(Evict(s, r, online).0, online)
  {
    OrderInTasks(s, r.order);
    EvictListed(s, r, online);
    var s1, s' := Pin(s, r, online), Evict(s, r, online).0;
    assert r.cpu in s.tasks[r.current].mask * online;
    MigrateSavedOnline(s1, r.order, r.current, r.cpu, online, r.failed);
    forall t | t in s'.tasks ensures s'.tasks[t].parent == s.tasks[t].parent && s'.tasks[t].depth == s.tasks[t].depth {
      EvictView(s, r, online, t);
    }
  }

  // ---- Runs ---------------------------------------------------------------

  datatype Event = AcquireBy(r: Request) | ReleaseBy(t: Tid) | Exit(t: Tid)

  /** An acquire runs on an online CPU of the caller's own mask. */
  ghost predicate Legal(s: State, e: Event, online: Mask) {
    match e
    case AcquireBy(r) => Callable(s, r) && r.cpu in online && r.cpu in s.tasks[r.current].mask
    case ReleaseBy(_) => Listed(s)
    case Exit(t) => t in s.tasks
  }

  ghost function Step(s: State, e: Event, online: Mask): (s': State)
    requires Legal(s, e, online)
    ensures s'.tasks.Keys == s.tasks.Keys
  {
    match e
    case AcquireBy(r) => Acquire(s, r, online).0
    case ReleaseBy(_) => Drain(s, online)
    case Exit(t) => s.(tasks := s.tasks[t := s.tasks[t].(alive := false)])
  }

  ghost predicate Run(s: State, es: seq<Event>, online: Mask)
    decreases |es|
  {
    es == [] || (Legal(s, es[0], online) && Run(Step(s, es[0], online), es[1..], online))
  }

  ghost function After(s: State, es: seq<Event>, online: Mask): (s': State)
    requires Run(s, es, online)
    ensures s'.tasks.Keys == s.tasks.Keys
    decreases |es|
  {
    if es == [] then s else After(Step(s, es[0], online), es[1..], online)
  }

  /** Event `e` makes the protocol forget the mask of `t`. */
  ghost predicate Loses(s: State, e: Event, online: Mask, t: Tid)
    requires t in s.tasks
  {
    e.AcquireBy? && e.r.masks && Unrecorded(s, e.r, online, t)
  }

  /** Some event of the run does. */
  ghost predicate LosesInRun(s: State, es: seq<Event>, online: Mask, t: Tid)
    requires Run(s, es, online) && t in s.tasks
    decreases |es|
  {
    es != [] && (Loses(s, es[0], online, t) || LosesInRun(Step(s, es[0], online), es[1..], online, t))
  }

  lemma DrainInv(s: State, online: Mask)
    requires Inv(s, online)
    ensures Inv(Drain(s, online), online)
  {
    var s' := Drain(s, online);
    forall t | t in s'.tasks ensures s'.tasks[t].parent == s.tasks[t].parent && s'.tasks[t].depth == s.tasks[t].depth {
      DrainRestores(s, online, t);
    }
  }

  /** A drain as one task sees it. */
  lemma DrainView(s: State, online: Mask, t: Tid)
    requires Inv(s, online) && t in s.tasks
    ensures var v, v' := ViewOf(s, t), ViewOf(Drain(s, online), t);
            && v'.entries == [] && v'.task.alive == v.task.alive
            && OwnRefs(v') == OwnRefs(v)
            && (v.task.alive ==> v'.task.mask == Base(v) == Base(v'))
            && (v.task.mask != {} ==> v.task.mask <= Base(v) ==> v'.task.mask != {})
  {
    DrainRestores(s, online, t);
  }

  /** What every step keeps of a task. */
  ghost predicate KeptByStep(v: View, v': View) {
    && OwnRefs(v') == OwnRefs(v)
    && (v'.task.alive ==> v.task.alive)
    && (v'.task.alive ==> Base(v') <= Base(v))
    && (v.task.mask <= Base(v) ==> v'.task.mask <= Base(v'))
    && (v.task.mask != {} && v.task.mask <= Base(v) ==> v'.task.mask != {})
  }

  lemma ShrinkKeeps(v: View, v': View, saveFails: bool)
    requires Shrinks(v, v', saveFails) && Base(v') <= Base(v)
    ensures KeptByStep(v, v')
  {
  }

  lemma DrainKeeps(s: State, online: Mask, t: Tid)
    requires Inv(s, online) && t in s.tasks
    ensures KeptByStep(ViewOf(s, t), ViewOf(Drain(s, online), t))
    ensures s.tasks[t].alive ==> Base(ViewOf(Drain(s, online), t)) == Base(ViewOf(s, t))
  {
    DrainView(s, online, t);
    DrainRestores(s, online, t);
  }

  lemma EvictKeeps(s: State, r: Request, online: Mask, t: Tid)
    requires Inv(s, online) && Legal(s, AcquireBy(r), online) && t in s.tasks
    ensures KeptByStep(ViewOf(s, t), ViewOf(Evict(s, r, online).0, t))
  {
    EvictView(s, r, online, t);
    EvictKeepsBaseIff(s, r, online, t);
    ShrinkKeeps(ViewOf(s, t), ViewOf(Evict(s, r, online).0, t), t in r.failed);
  }

  lemma KeptTwice(v: View, v': View, v'': View)
    requires KeptByStep(v, v') && KeptByStep(v', v'')
    ensures KeptByStep(v, v'')
  {
  }

  /** An acquire that got its CPU masks ends with what evicting leaves, or with
      that drained. */
  lemma AcquireOutcome(s: State, r: Request, online: Mask)
    requires Callable(s, r) && r.cpu in online && r.masks
    ensures Listed(Evict(s, r, online).0)
    ensures Acquire(s, r, online).0 ==
            if Acquire(s, r, online).1 == 0 then Evict(s, r, online).0 else Drain(Evict(s, r, online).0, online)
  {
    EvictListed(s, r, online);
  }

  lemma EvictDrainKeeps(s: State, s': State, online: Mask, t: Tid)
    requires Inv(s', online) && t in s.tasks && t in s'.tasks && KeptByStep(ViewOf(s, t), ViewOf(s', t))
    ensures Inv(Drain(s', online), online)
    ensures KeptByStep(ViewOf(s, t), ViewOf(Drain(s', online), t))
    ensures s'.tasks[t].alive ==> Base(ViewOf(Drain(s', online), t)) == Base(ViewOf(s', t))
  {
    DrainInv(s', online);
    DrainKeeps(s', online, t);
    KeptTwice(ViewOf(s, t), ViewOf(s', t), ViewOf(Drain(s', online), t));
  }

  lemma AcquireKeeps(s: State, r: Request, online: Mask, t: Tid)
    requires Inv(s, online) && Legal(s, AcquireBy(r), online) && t in s.tasks
    ensures Inv(Acquire(s, r, online).0, online)
    ensures KeptByStep(ViewOf(s, t), ViewOf(Acquire(s, r, online).0, t))
    ensures s.tasks[t].alive ==>
              (Base(ViewOf(Acquire(s, r, online).0, t)) == Base(ViewOf(s, t)) <==>
               !Loses(s, AcquireBy(r), online, t))
  {
    if !r.masks {
      DrainInv(s, online);
      DrainKeeps(s, online, t);
    } else {
      AcquireOutcome(s, r, online);
      EvictInv(s, r, online);
      EvictView(s, r, online, t);
      EvictKeepsBaseIff(s, r, online, t);
      EvictKeeps(s, r, online, t);
      EvictDrainKeeps(s, Evict(s, r, online).0, online, t);
    }
  }

  lemma StepKeeps(s: State, e: Event, online: Mask, t: Tid)
    requires Inv(s, online) && Legal(s, e, online) && t in s.tasks
    ensures Inv(Step(s, e, online), online)
    ensures KeptByStep(ViewOf(s, t), ViewOf(Step(s, e, online), t))
    ensures Step(s, e, online).tasks[t].alive ==>
              (Base(ViewOf(Step(s, e, online), t)) == Base(ViewOf(s, t)) <==> !Loses(s, e, online, t))
  {
    match e {
      case AcquireBy(r) =>
        AcquireKeeps(s, r, online, t);
      case ReleaseBy(_) =>
        DrainInv(s, online);
        DrainKeeps(s, online, t);
      case Exit(u) =>
    }
  }

  /** Over every run, whatever saves or acquires fail, overlap or release in any
      order, and whatever tasks exit: every task's own references never change,
      its mask stays a non-empty part of its base, and a live task's base never
      grows, and is the same exactly if no event of the run loses it. */
  lemma {:induction false} RunKeeps(s: State, es: seq<Event>, online: Mask, t: Tid)
    requires Inv(s, online) && Run(s, es, online) && t in s.tasks
    ensures Inv(After(s, es, online), online)
    ensures KeptByStep(ViewOf(s, t), ViewOf(After(s, es, online), t))
    ensures After(s, es, online).tasks[t].alive ==>
              (Base(ViewOf(After(s, es, online), t)) == Base(ViewOf(s, t)) <==> !LosesInRun(s, es, online, t))
    decreases |es|
  {
    if es == [] {
    } else {
      var s1 := Step(s, es[0], online);
      StepKeeps(s, es[0], online, t);
      RunKeeps(s1, es[1..], online, t);
      KeptTwice(ViewOf(s, t), ViewOf(s1, t), ViewOf(After(s, es, online), t));
    }
  }

  /** Restoration: from an empty list, whenever the list is empty again, a task
      has the references it started with, and a live one has the mask it started
      with exactly if no event of the run loses it; otherwise it has less. */
  lemma {:induction false} LifoRestoration(s: State, es: seq<Event>, online: Mask, t: Tid)
    requires Inv(s, online) && Run(s, es, online) && t in s.tasks
    requires s.saved == [] && After(s, es, online).saved == []
    ensures var s' := After(s, es, online);
            && s'.tasks[t].refs == s.tasks[t].refs
            && (s'.tasks[t].alive ==>
                && s'.tasks[t].mask <= s.tasks[t].mask
                && (s'.tasks[t].mask == s.tasks[t].mask <==> !LosesInRun(s, es, online, t)))
  {
    RunKeeps(s, es, online, t);
  }

  /** In particular nothing is lost if every save succeeds. */
  lemma {:induction false} SavesSucceedLosesNothing(s: State, es: seq<Event>, online: Mask, t: Tid)
    requires Run(s, es, online) && t in s.tasks
    requires forall i :: 0 <= i < |es| && es[i].AcquireBy? ==> t !in es[i].r.failed
    ensures !LosesInRun(s, es, online, t)
    decreases |es|
  {
    if es == [] {
    } else {
      SavesSucceedLosesNothing(Step(s, es[0], online), es[1..], online, t);
    }
  }

  /** An acquire that fails while nothing is saved changes the mask of no task
      but those whose mask it changes without a record. */
  lemma FailedAcquireChangesMaskIff(s: State, r: Request, online: Mask, t: Tid)
    requires Inv(s, online) && Legal(s, AcquireBy(r), online) && t in s.tasks
    requires s.saved == [] && Acquire(s, r, online).1 != 0
    ensures Acquire(s, r, online).0.tasks[t].mask == s.tasks[t].mask <==> !Loses(s, AcquireBy(r), online, t)
  {
    if !r.masks {
      DrainRestores(s, online, t);
    } else {
      AcquireOutcome(s, r, online);
      EvictInv(s, r, online);
      EvictView(s, r, online, t);
      MaskStaysIff(s, r, online, t);
      DrainRestores(Evict(s, r, online).0, online, t);
    }
  }

  /** If saving fails, a release need not restore: with CPUs 0 and 1 online, task
      7 loses CPU 0 to task 5 for good. */
  lemma UnsavedMaskIsLost()
    ensures var five := Task(5, false, None, 0, true, 5, true, {0}, 1, false);
            var seven := Task(7, false, None, 0, true, 7, true, {0, 1}, 1, false);
            var s := State(map[5 := five, 7 := seven], []);
            var r := Request(5, 0, 0, true, [5, 7], {7}, 0);
            && Callable(s, r) && Acquire(s, r, {0, 1}).1 == 0
            && (assert Listed(Acquire(s, r, {0, 1}).0) by { EvictListed(s, r, {0, 1}); }
                Drain(Acquire(s, r, {0, 1}).0, {0, 1}).tasks[7].mask == {1})
  {
    var five := Task(5, false, None, 0, true, 5, true, {0}, 1, false);
    var seven := Task(7, false, None, 0, true, 7, true, {0, 1}, 1, false);
    var s := State(map[5 := five, 7 := seven], []);
    var r := Request(5, 0, 0, true, [5, 7], {7}, 0);
    var online: Mask := {0, 1};
    assert Callable(s, r);
    assert Inv(s, online);
    EvictInv(s, r, online);
    EvictView(s, r, online, 7);
    var s' := Evict(s, r, online).0;
    assert ViewOf(s', 7).task.mask == (online - {0}) * {0, 1};
    assert (online - {0}) * {0, 1} == {1};
    DrainView(s', online, 7);
  }

  // ---- Killing on the only CPU --------------------------------------------

  lemma PinKeepsKin(s: State, r: Request, online: Mask)
    requires Forest(s.tasks) && r.current in s.tasks
    ensures SameKin(s.tasks, Pin(s, r, online).tasks) && Forest(Pin(s, r, online).tasks)
  {
    var s1 := Pin(s, r, online);
    forall t | t in s.tasks
      ensures s1.tasks[t] == s.tasks[t].(mask := s1.tasks[t].mask, refs := s1.tasks[t].refs)
    {
      assert s1.tasks[t].(mask := {}, refs := 0) == s.tasks[t].(mask := {}, refs := 0);
    }
  }

  /** The victims are the live threads that are not spared. */
  lemma VictimsExactly(s: State, r: Request, online: Mask, t: Tid)
    requires Callable(s, r) && t in s.tasks
    ensures forall i :: 0 <= i < |r.order| ==> r.order[i] in s.tasks
    ensures Forest(Pin(s, r, online).tasks)
    ensures t in Victims(Pin(s, r, online).tasks, r.order, r.current, r.policy) <==>
              s.tasks[t].alive && (r.policy >= 2 || !Spared(s.tasks, t, r.current))
  {
    OrderInTasks(s, r.order);
    PinKeepsKin(s, r, online);
    SparedSame(s.tasks, Pin(s, r, online).tasks, t, r.current);
  }

  /** Each task of the path is the parent of the one before, and none is init. */
  ghost predicate ParentPath(tasks: map<Tid, Task>, path: seq<Tid>) {
    && path != [] && (forall i :: 0 <= i < |path| ==> path[i] in tasks && tasks[path[i]].pid > 1)
    && (forall i :: 0 < i < |path| ==> tasks[path[i - 1]].parent == Some(path[i]))
  }

  ghost predicate Descends(tasks: map<Tid, Task>, t: Tid, a: Tid) {
    exists path :: ParentPath(tasks, path) && path[0] == t && path[|path| - 1] == a
  }

  lemma {:induction false} PathIsNthParent(tasks: map<Tid, Task>, path: seq<Tid>, k: nat)
    requires Forest(tasks) && ParentPath(tasks, path) && k < |path|
    ensures NthParent(tasks, path[0], k) == Some(path[k])
  {
    if k == 0 {
    } else {
      PathIsNthParent(tasks, path, k - 1);
    }
  }

  /** `is_ancestor` finds exactly the tasks the caller descends from below init. */
  lemma AncestorIffDescends(tasks: map<Tid, Task>, a: Tid, t: Tid)
    requires Forest(tasks) && t in tasks
    ensures Ancestor(tasks, a, t) <==> Descends(tasks, t, a)
  {
    if Ancestor(tasks, a, t) {
      var k: nat :| NthParent(tasks, t, k) == Some(a) && forall j: nat :: j <= k ==> BelowInit(tasks, t, j);
      forall j: nat | j <= k ensures NthParent(tasks, t, j).Some? {
        assert BelowInit(tasks, t, j);
      }
      var path := seq(k + 1, i requires 0 <= i <= k => NthParent(tasks, t, i).value);
      forall i | 0 <= i < |path| ensures path[i] in tasks && tasks[path[i]].pid > 1 {
        assert BelowInit(tasks, t, i);
      }
      assert ParentPath(tasks, path) && path[0] == t && path[|path| - 1] == a;
    }
    if Descends(tasks, t, a) {
      var path :| ParentPath(tasks, path) && path[0] == t && path[|path| - 1] == a;
      PathIsNthParent(tasks, path, |path| - 1);
      forall j: nat | j <= |path| - 1 ensures BelowInit(tasks, t, j) {
        PathIsNthParent(tasks, path, j);
      }
    }
  }

  /** Init, kernel threads, the caller, what it descends from, its session. */
  ghost predicate Untouchable(tasks: map<Tid, Task>, t: Tid, current: Tid)
    requires t in tasks && current in tasks
  {
    || tasks[t].pid == 1 || tasks[t].kthread || t == current || Descends(tasks, current, t)
    || (tasks[t].hasSignal && tasks[current].hasSignal && tasks[t].session == tasks[current].session)
  }

  lemma SparedIsUntouchable(tasks: map<Tid, Task>, t: Tid, current: Tid)
    requires Forest(tasks) && t in tasks && current in tasks
    ensures Spared(tasks, t, current) <==> Untouchable(tasks, t, current)
  {
    AncestorIffDescends(tasks, t, current);
  }

  /** Whatever the outcome of an acquire, it sends SIGKILL exactly to the live
      tasks it may touch, under policy 1 and if there is one CPU only; policy 2
      spares nobody. */
  lemma SignalledExactly(s: State, r: Request, online: Mask, t: Tid)
    requires Inv(s, online) && Legal(s, AcquireBy(r), online) && t in s.tasks
    ensures Acquire(s, r, online).0.tasks[t].sigkilled <==>
              || s.tasks[t].sigkilled
              || (&& |online| == 1 && r.masks && r.policy > 0 && s.tasks[t].alive
                  && (r.policy >= 2 || !Untouchable(s.tasks, t, r.current)))
  {
    SparedIsUntouchable(s.tasks, t, r.current);
    if !r.masks {
      DrainRestores(s, online, t);
      return;
    }
    AcquireOutcome(s, r, online);
    EvictInv(s, r, online);
    DrainRestores(Evict(s, r, online).0, online, t);
    PinView(s, r, online, t);
    if |online| == 1 {
      VictimsExactly(s, r, online, t);
    } else {
      EvictViewManyCpus(s, r, online, t);
    }
  }

  /** No acquire below policy 2 kills a member of the caller's session. */
  lemma SessionIsSafe(s: State, r: Request, online: Mask, t: Tid)
    requires Inv(s, online) && Legal(s, AcquireBy(r), online) && t in s.tasks && r.policy < 2
    requires s.tasks[t].hasSignal && s.tasks[r.current].hasSignal && s.tasks[t].session == s.tasks[r.current].session
    ensures Acquire(s, r, online).0.tasks[t].sigkilled == s.tasks[t].sigkilled
  {
    SignalledExactly(s, r, online, t);
  }

  /** The result of an acquire: the error numbers of an invalid call and of
      exhausted memory, or what raising the priority returned.  On the only CPU
      policy 0 may not kill, so nobody must be in the way. */
  lemma AcquireReturns(s: State, r: Request, online: Mask)
    requires Callable(s, r)
    ensures Acquire(s, r, online).1 ==
              if r.cpu !in online then -22
              else if !r.masks then -12
              else if && |online| == 1 && r.policy == 0
                      && exists t :: t in s.tasks && s.tasks[t].alive && !Untouchable(s.tasks, t, r.current) then -22
              else r.prioRc
  {
    forall t | t in s.tasks ensures Spared(s.tasks, t, r.current) <==> Untouchable(s.tasks, t, r.current) {
      SparedIsUntouchable(s.tasks, t, r.current);
    }
    if r.cpu in online && |online| == 1 {
      VictimsExactly(s, r, online, r.current);
      var victims := Victims(Pin(s, r, online).tasks, r.order, r.current, r.policy);
      forall t | t in s.tasks
        ensures t in victims <==> s.tasks[t].alive && (r.policy >= 2 || !Spared(s.tasks, t, r.current))
      {
        VictimsExactly(s, r, online, t);
      }
      assert victims != [] ==> victims[0] in victims;
    }
  }

  /** What is left alone of `t` from `s` to `s'`. */
  ghost predicate LeftAlone(s: State, s': State, t: Tid)
    requires t in s.tasks && t in s'.tasks
  {
    && s'.tasks[t].mask == s.tasks[t].mask && Entries(s'.saved, t) == []
    && s'.tasks[t].pid == s.tasks[t].pid && s'.tasks[t].kthread == s.tasks[t].kthread
  }

  lemma ExemptEvict(s: State, r: Request, online: Mask, t: Tid)
    requires Inv(s, online) && Legal(s, AcquireBy(r), online) && t in s.tasks && t != r.current
    requires (s.tasks[t].pid == 1 || s.tasks[t].kthread) && Entries(s.saved, t) == []
    ensures LeftAlone(s, Evict(s, r, online).0, t)
  {
    EvictView(s, r, online, t);
    PinView(s, r, online, t);
    if |online| == 1 {
      EvictViewOneCpu(s, r, online, t);
    }
  }

  lemma ExemptDrain(s: State, online: Mask, t: Tid)
    requires Inv(s, online) && t in s.tasks && Entries(s.saved, t) == []
    ensures LeftAlone(s, Drain(s, online), t) && Drain(s, online).tasks[t].sigkilled == s.tasks[t].sigkilled
  {
    DrainRestores(s, online, t);
  }

  lemma ExemptStep(s: State, e: Event, online: Mask, t: Tid)
    requires Inv(s, online) && Legal(s, e, online) && t in s.tasks && (e.AcquireBy? ==> e.r.current != t)
    requires (s.tasks[t].pid == 1 || s.tasks[t].kthread) && Entries(s.saved, t) == []
    ensures LeftAlone(s, Step(s, e, online), t)
    ensures (e.AcquireBy? ==> e.r.policy < 2) ==> Step(s, e, online).tasks[t].sigkilled == s.tasks[t].sigkilled
  {
    match e {
      case AcquireBy(r) =>
        SignalledExactly(s, r, online, t);
        if !r.masks {
          ExemptDrain(s, online, t);
        } else {
          AcquireOutcome(s, r, online);
          ExemptEvict(s, r, online, t);
          EvictInv(s, r, online);
          ExemptDrain(Evict(s, r, online).0, online, t);
        }
      case ReleaseBy(_) =>
        ExemptDrain(s, online, t);
      case Exit(u) =>
    }
  }

  /** Over every run: init and kernel threads that do not acquire a CPU themselves
      keep their masks, are never recorded, and are never killed below policy 2. */
  lemma {:induction false} ExemptOverRuns(s: State, es: seq<Event>, online: Mask, t: Tid)
    requires Inv(s, online) && Run(s, es, online) && t in s.tasks
    requires (s.tasks[t].pid == 1 || s.tasks[t].kthread) && Entries(s.saved, t) == []
    requires forall i :: 0 <= i < |es| && es[i].AcquireBy? ==> es[i].r.current != t
    ensures var s' := After(s, es, online);
            && s'.tasks[t].mask == s.tasks[t].mask && Entries(s'.saved, t) == []
            && ((forall i :: 0 <= i < |es| && es[i].AcquireBy? ==> es[i].r.policy < 2) ==>
                s'.tasks[t].sigkilled == s.tasks[t].sigkilled)
    decreases |es|
  {
    if es == [] {
    } else {
      StepKeeps(s, es[0], online, t);
      ExemptStep(s, es[0], online, t);
      ExemptOverRuns(Step(s, es[0], online), es[1..], online, t);
    }
  }

  // ---- Exclusivity --------------------------------------------------------

  /** A successful acquire: who, which CPU, and the caller's mask before it. */
  datatype Hold = Hold(task: Tid, cpu: int, before: Mask)

  predicate UserTask(task: Task) {
    !task.kthread && task.pid != 1
  }

  /** The acquires since the list was last drained. */
  ghost function HoldsAfterStep(s: State, holds: seq<Hold>, e: Event, online: Mask): seq<Hold>
    requires Legal(s, e, online)
  {
    match e
    case AcquireBy(r) =>
      if Acquire(s, r, online).1 == 0 then holds + [Hold(r.current, r.cpu, s.tasks[r.current].mask)] else []
    case ReleaseBy(_) => []
    case Exit(_) => holds
  }

  ghost function HoldsAfter(s: State, holds: seq<Hold>, es: seq<Event>, online: Mask): seq<Hold>
    requires Run(s, es, online)
    decreases |es|
  {
    if es == [] then holds
    else HoldsAfter(Step(s, es[0], online), HoldsAfterStep(s, holds, es[0], online), es[1..], online)
  }

  /** Task `t` cannot run on `cpu`, unless it can run nowhere else. */
  predicate OffOrStuck(task: Task, cpu: int, online: Mask) {
    cpu !in task.mask || task.mask * online == {cpu}
  }

  ghost predicate Excludes(s: State, h: Hold, online: Mask) {
    && h.task in s.tasks && h.cpu in online && h.cpu in h.before
    && (s.tasks[h.task].alive ==> s.tasks[h.task].mask == {h.cpu})
    && (forall t :: t in s.tasks && t != h.task && s.tasks[t].alive && UserTask(s.tasks[t]) ==>
          OffOrStuck(s.tasks[t], h.cpu, online))
  }

  /** Two holders of one CPU: the later one could run nowhere else. */
  ghost predicate Compatible(s: State, h: Hold, h': Hold, online: Mask)
    requires h'.task in s.tasks
  {
    h.task != h'.task && UserTask(s.tasks[h'.task]) && h.cpu == h'.cpu ==> h'.before * online == {h.cpu}
  }

  ghost predicate Exclusive(s: State, holds: seq<Hold>, online: Mask) {
    && (forall i :: 0 <= i < |holds| ==> Excludes(s, holds[i], online))
    && (forall i, j :: 0 <= i < j < |holds| ==> Compatible(s, holds[i], holds[j], online))
  }

  /** A further acquire takes nothing away from an earlier holder. */
  lemma EvictKeepsExclusion(s: State, r: Request, online: Mask, h: Hold)
    requires Callable(s, r) && r.cpu in online && r.cpu in s.tasks[r.current].mask && |online| != 1
    requires Excludes(s, h, online)
    ensures Excludes(Evict(s, r, online).0, h, online)
  {
    var s' := Evict(s, r, online).0;
    EvictView(s, r, online, h.task);
    forall t | t in s'.tasks && t != h.task && s'.tasks[t].alive && UserTask(s'.tasks[t])
      ensures OffOrStuck(s'.tasks[t], h.cpu, online)
    {
      EvictView(s, r, online, t);
      assert OffOrStuck(s.tasks[t], h.cpu, online);
      assert r.cpu in s.tasks[t].mask ==> r.cpu in s.tasks[t].mask * online;
    }
  }

  /** A successful acquire excludes every other user task but init, or leaves it
      because its online mask was this CPU only. */
  lemma EvictExcludes(s: State, r: Request, online: Mask)
    requires Callable(s, r) && r.cpu in online && r.cpu in s.tasks[r.current].mask && |online| != 1
    ensures Excludes(Evict(s, r, online).0, Hold(r.current, r.cpu, s.tasks[r.current].mask), online)
  {
    var s' := Evict(s, r, online).0;
    EvictView(s, r, online, r.current);
    forall t | t in s'.tasks && t != r.current && s'.tasks[t].alive && UserTask(s'.tasks[t])
      ensures OffOrStuck(s'.tasks[t], r.cpu, online)
    {
      EvictView(s, r, online, t);
      assert r.cpu in s.tasks[t].mask ==> r.cpu in s.tasks[t].mask * online;
      assert (online - {r.cpu}) * s.tasks[t].mask == s.tasks[t].mask * online - {r.cpu};
    }
  }

  lemma StepKeepsExclusive(s: State, holds: seq<Hold>, e: Event, online: Mask)
    requires Legal(s, e, online) && |online| != 1 && Exclusive(s, holds, online)
    ensures Exclusive(Step(s, e, online), HoldsAfterStep(s, holds, e, online), online)
  {
    match e {
      case AcquireBy(r) =>
        var s', holds' := Step(s, e, online), HoldsAfterStep(s, holds, e, online);
        if Acquire(s, r, online).1 == 0 {
          AcquireOutcome(s, r, online);
          EvictExcludes(s, r, online);
          forall i | 0 <= i < |holds'| ensures Excludes(s', holds'[i], online) {
            if i < |holds| {
              EvictKeepsExclusion(s, r, online, holds[i]);
            }
          }
          forall i, j | 0 <= i < j < |holds'| ensures Compatible(s', holds'[i], holds'[j], online) {
            EvictView(s, r, online, holds'[j].task);
            assert Excludes(s, holds[i], online);
            if j < |holds| {
              assert Compatible(s, holds[i], holds[j], online);
            }
          }
        }
      case ReleaseBy(_) =>
      case Exit(u) =>
        forall i, j | 0 <= i < j < |holds| ensures Compatible(Step(s, e, online), holds[i], holds[j], online) {
          assert Compatible(s, holds[i], holds[j], online);
        }
    }
  }

  /** Over every run on several CPUs, failed saves included: since the last
      drain every holder's CPU is closed to every other live user task except
      init and tasks that can run nowhere else, and two user tasks hold the same
      CPU only if the later one could run nowhere else. */
  lemma {:induction false} ExclusivityOverRuns(s: State, holds: seq<Hold>, es: seq<Event>, online: Mask)
    requires Run(s, es, online) && |online| != 1 && Exclusive(s, holds, online)
    ensures Exclusive(After(s, es, online), HoldsAfter(s, holds, es, online), online)
    decreases |es|
  {
    if es == [] {
    } else {
      StepKeepsExclusive(s, holds, es[0], online);
      ExclusivityOverRuns(Step(s, es[0], online), HoldsAfterStep(s, holds, es[0], online), es[1..], online);
    }
  }

  /** So user tasks that hold CPUs at the same time hold different ones, unless
      the later one could run nowhere else when it acquired. */
  lemma HoldersAreDistinct(s: State, es: seq<Event>, online: Mask, i: nat, j: nat)
    requires Run(s, es, online) && |online| != 1
    requires i < j < |HoldsAfter(s, [], es, online)|
    ensures var holds := HoldsAfter(s, [], es, online);
            && holds[j].task in s.tasks
            && (holds[i].task != holds[j].task ==>
                UserTask(After(s, es, online).tasks[holds[j].task]) ==>
                holds[j].before * online != {holds[j].cpu} ==>
                holds[i].cpu != holds[j].cpu)
  {
    ExclusivityOverRuns(s, [], es, online);
    var holds := HoldsAfter(s, [], es, online);
    assert Excludes(After(s, es, online), holds[j], online);
    assert Compatible(After(s, es, online), holds[i], holds[j], online);
  }
}
