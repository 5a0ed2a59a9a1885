/** The dashboard's figures (`DashboardView`): how many tasks there are,
    how many are projects and how many social assets, how many are
    completed, how many fall due in the coming week, and each resource's
    workload. */
module Dashboard {
  import opened Records
  import opened Sorting
  import opened Layout

  /** How many elements of `s` satisfy `p` (`s.filter(p).length`). */
  function CountWhere<T>(s: seq<T>, p: T -> bool): (n: nat)
    ensures n <= |s|
    ensures n == 0 <==> forall i :: 0 <= i < |s| ==> !p(s[i])
    decreases |s|
  {
    if s == [] then 0
    else
      var init := s[..|s| - 1];
      assert forall i :: 0 <= i < |init| ==> init[i] == s[i];
      CountWhere(init, p) + if p(s[|s| - 1]) then 1 else 0
  }

  lemma CountAppend<T>(s: seq<T>, x: T, p: T -> bool)
    ensures CountWhere(s + [x], p) == CountWhere(s, p) + if p(x) then 1 else 0
  {
    assert (s + [x])[..|s|] == s;
  }

  /** A task is completed when it has phases and its last phase is at
      100 percent. */
  predicate IsCompleted(t: Task) {
    |t.phases| > 0 && t.phases[|t.phases| - 1].progress == 100
  }

  predicate IsSocial(t: Task) {
    t.kind == SocialAsset
  }

  /** A task whose type is not "social" is counted as a project. */
  predicate IsProject(t: Task) {
    t.kind != SocialAsset
  }

  function CompletedCount(tasks: seq<Task>): (n: nat)
    ensures n <= |tasks|
    ensures n == 0 <==> forall i :: 0 <= i < |tasks| ==> !IsCompleted(tasks[i])
  {
    CountWhere(tasks, IsCompleted)
  }

  /** Every task is counted exactly once as a project or as a social
      asset. */
  lemma {:induction false} KindsPartition(tasks: seq<Task>)
    ensures CountWhere(tasks, IsSocial) + CountWhere(tasks, IsProject) == |tasks|
    decreases |tasks|
  {
    if tasks != [] {
      var init := tasks[..|tasks| - 1];
      KindsPartition(init);
      CountAppend(init, tasks[|tasks| - 1], IsSocial);
      CountAppend(init, tasks[|tasks| - 1], IsProject);
      assert init + [tasks[|tasks| - 1]] == tasks;
    }
  }

  /** A task with no phases never counts as completed, whatever else it
      holds; a task whose last phase is at 100 always does. */
  lemma CompletedExamples(t: Task, p: Phase)
    ensures CompletedCount([t.(phases := [])]) == 0
    ensures CompletedCount([t.(phases := t.phases + [p.(progress := 100)])]) == 1
  {
    var done := t.(phases := t.phases + [p.(progress := 100)]);
    assert IsCompleted(done);
    assert [done][..0] == [];
  }

  // ---------------------------------------------------------------------
  // Due this week

  const MsPerDay: nat := 86400000

  /** `new Date(t.deadline)` lies strictly after the current instant and
      strictly before the same instant seven days on. A deadline is read as
      midnight at the start of its day; `nowMs` is the current instant in
      milliseconds on the same scale. */
  predicate DueSoon(t: Task, nowMs: int) {
    nowMs < t.deadline * MsPerDay < nowMs + 7 * MsPerDay
  }

  function DueThisWeek(tasks: seq<Task>, nowMs: int): (n: nat)
    ensures n <= |tasks|
    ensures n == 0 <==> forall i :: 0 <= i < |tasks| ==> !DueSoon(tasks[i], nowMs)
  {
    CountWhere(tasks, (t: Task) => DueSoon(t, nowMs))
  }

  /** In days: a task due today is never counted; one due on any of the six
      following days always is; nothing due more than seven days on is. */
  lemma DueSoonDays(t: Task, nowMs: int)
    ensures var today := nowMs / MsPerDay;
      && (DueSoon(t, nowMs) ==> today < t.deadline <= today + 7)
      && (today < t.deadline <= today + 6 ==> DueSoon(t, nowMs))
  {
    var today, r := nowMs / MsPerDay, nowMs % MsPerDay;
    assert nowMs == today * MsPerDay + r && 0 <= r < MsPerDay;
    var d := t.deadline;
    if DueSoon(t, nowMs) {
      if d <= today {
        MulMonotone(d, today);
      }
      if d > today + 7 {
        MulMonotone(today + 8, d);
      }
    }
    if today < d <= today + 6 {
      MulMonotone(today + 1, d);
      MulMonotone(d, today + 6);
      assert (today + 1) * MsPerDay == today * MsPerDay + MsPerDay;
      assert (today + 6) * MsPerDay == today * MsPerDay + 6 * MsPerDay;
    }
  }

  lemma MulMonotone(a: int, b: int)
    requires a <= b
    ensures a * MsPerDay <= b * MsPerDay
  {
    assert b * MsPerDay - a * MsPerDay == (b - a) * MsPerDay;
  }

  // ---------------------------------------------------------------------
  // Workload

  /** How many tasks name `a` as their resource. */
  function CountArtist(tasks: seq<Task>, a: string): (n: nat)
    ensures n <= |tasks|
    ensures n == 0 <==> forall i :: 0 <= i < |tasks| ==> tasks[i].artist != a
  {
    CountWhere(tasks, NamesArtist(a))
  }

  function NamesArtist(a: string): Task -> bool {
    (t: Task) => t.artist == a
  }

  /** Every resource in `load` has a positive count, and every name counts
      as many tasks of `done` as `load` says. */
  ghost predicate Tallied(load: map<string, nat>, done: seq<Task>) {
    && (forall a :: a in load ==> load[a] == CountArtist(done, a) && load[a] > 0)
    && (forall a :: a !in load ==> CountArtist(done, a) == 0)
  }

  lemma TallyStep(load: map<string, nat>, done: seq<Task>, t: Task)
    requires Tallied(load, done)
    ensures Tallied(load[t.artist := (if t.artist in load then load[t.artist] else 0) + 1], done + [t])
  {
    var load' := load[t.artist := (if t.artist in load then load[t.artist] else 0) + 1];
    forall a ensures CountArtist(done + [t], a) == CountArtist(done, a) + if t.artist == a then 1 else 0 {
      CountAppend(done, t, NamesArtist(a));
    }
    assert forall a :: a in load' ==> load'[a] == CountArtist(done + [t], a);
  }

  /** Adds one task to the tally of its resource. */
  method Tally(load: map<string, nat>, ghost done: seq<Task>, t: Task) returns (load': map<string, nat>)
    requires Tallied(load, done)
    ensures Tallied(load', done + [t])
  {
    TallyStep(load, done, t);
    load' := load[t.artist := (if t.artist in load then load[t.artist] else 0) + 1];
  }

  /** `artistLoad`: one entry per resource named by some task, holding the
      number of tasks that name it. */
  method ArtistLoad(tasks: seq<Task>) returns (load: map<string, nat>)
    ensures forall a :: a in load <==> exists i :: 0 <= i < |tasks| && tasks[i].artist == a
    ensures forall a :: a in load ==> load[a] == CountArtist(tasks, a)
  {
    load := map[];
    var i := 0;
    while i < |tasks|
      invariant 0 <= i <= |tasks|
      invariant Tallied(load, tasks[..i])
    {
      PrefixStep(tasks, i);
      load := Tally(load, tasks[..i], tasks[i]);
      i := i + 1;
    }
    assert tasks[..i] == tasks;
    forall a ensures a in load <==> exists j :: 0 <= j < |tasks| && tasks[j].artist == a {
      assert CountArtist(tasks, a) == 0 <==> forall j :: 0 <= j < |tasks| ==> tasks[j].artist != a;
    }
  }

  /** The workload of a named resource is the number of tasks in its
      timeline row. */
  lemma {:induction false} WorkloadIsRow(tasks: seq<Task>, a: string)
    requires a != "" && a != Unassigned
    ensures CountArtist(tasks, a) == |TasksOf(tasks, a)|
    decreases |tasks|
  {
    if tasks != [] {
      var init, t := tasks[..|tasks| - 1], tasks[|tasks| - 1];
      WorkloadIsRow(init, a);
      CountAppend(init, t, NamesArtist(a));
      assert init + [t] == tasks;
    }
  }

  /** The "Unassigned" row of the timeline holds the tasks the workload
      counts under "Unassigned" together with those it counts under the
      empty name. */
  lemma {:induction false} UnassignedRow(tasks: seq<Task>)
    ensures CountArtist(tasks, Unassigned) + CountArtist(tasks, "") == |TasksOf(tasks, Unassigned)|
    decreases |tasks|
  {
    if tasks != [] {
      var init, t := tasks[..|tasks| - 1], tasks[|tasks| - 1];
      UnassignedRow(init);
      CountAppend(init, t, NamesArtist(Unassigned));
      CountAppend(init, t, NamesArtist(""));
      assert init + [t] == tasks;
    }
  }

  /** One more task adds one to each figure it qualifies for and leaves the
      others as they were. */
  lemma CountsStep(tasks: seq<Task>, t: Task, nowMs: int, a: string)
    ensures CompletedCount(tasks + [t]) == CompletedCount(tasks) + if IsCompleted(t) then 1 else 0
    ensures DueThisWeek(tasks + [t], nowMs) == DueThisWeek(tasks, nowMs) + if DueSoon(t, nowMs) then 1 else 0
    ensures CountArtist(tasks + [t], a) == CountArtist(tasks, a) + if t.artist == a then 1 else 0
  {
    CountAppend(tasks, t, IsCompleted);
    CountAppend(tasks, t, (u: Task) => DueSoon(u, nowMs));
    CountAppend(tasks, t, NamesArtist(a));
  }
}
