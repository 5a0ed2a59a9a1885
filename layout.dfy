/** The timeline's rows (`groupedTasks`): tasks grouped by resource, the
    resources in name order with "Unassigned" last, and each resource's
    tasks in order of start date. */
module Layout {
  import opened Records
  import opened Sorting

  /** Code-unit lexicographic order on names; it stands in for
      `localeCompare`, and the proofs below use only that it is a total
      order. */
  predicate LexLe(a: string, b: string)
    decreases |a|
  {
    a == [] || (b != [] && (a[0] < b[0] || (a[0] == b[0] && LexLe(a[1..], b[1..]))))
  }

  lemma {:induction false} LexTotal(a: string, b: string)
    ensures LexLe(a, b) || LexLe(b, a)
    decreases |a|
  {
    if a != [] && b != [] && a[0] == b[0] {
      LexTotal(a[1..], b[1..]);
    }
  }

  lemma {:induction false} LexTransitive(a: string, b: string, c: string)
    requires LexLe(a, b) && LexLe(b, c)
    ensures LexLe(a, c)
    decreases |a|
  {
    if a != [] && b != [] && c != [] && a[0] == b[0] == c[0] {
      LexTransitive(a[1..], b[1..], c[1..]);
    }
  }

  lemma {:induction false} LexAntisymmetric(a: string, b: string)
    requires LexLe(a, b) && LexLe(b, a)
    ensures a == b
    decreases |a|
  {
    if a != [] && b != [] {
      LexAntisymmetric(a[1..], b[1..]);
      assert a == [a[0]] + a[1..] && b == [b[0]] + b[1..];
    }
  }

  /** The row a task is listed under: its resource, or "Unassigned". */
  function GroupKey(t: Task): string {
    OrElse(t.artist, Unassigned)
  }

  /** The order of resource rows: by name, with "Unassigned" after every
      other name. */
  predicate ArtistLe(a: string, b: string) {
    if a == Unassigned then b == Unassigned else b == Unassigned || LexLe(a, b)
  }

  lemma ArtistLeTotal()
    ensures TotalPreorder(ArtistLe)
  {
    forall a, b ensures ArtistLe(a, b) || ArtistLe(b, a) {
      LexTotal(a, b);
    }
    forall a, b, c | ArtistLe(a, b) && ArtistLe(b, c) ensures ArtistLe(a, c) {
      if a != Unassigned && b != Unassigned && c != Unassigned {
        LexTransitive(a, b, c);
      }
    }
  }

  /** Two different names are never equivalent in the row order. */
  lemma ArtistLeAntisymmetric(a: string, b: string)
    requires ArtistLe(a, b) && ArtistLe(b, a)
    ensures a == b
  {
    if a != Unassigned && b != Unassigned {
      LexAntisymmetric(a, b);
    }
  }

  /** The order of tasks inside a row: by start date. */
  function StartLe(a: Task, b: Task): bool {
    a.startDate <= b.startDate
  }

  /** The tasks listed under `artist`, in their order in `tasks`. */
  function TasksOf(tasks: seq<Task>, artist: string): (r: seq<Task>)
    ensures |r| <= |tasks|
    decreases |tasks|
  {
    if tasks == [] then []
    else
      var last := tasks[|tasks| - 1];
      TasksOf(tasks[..|tasks| - 1], artist) + if GroupKey(last) == artist then [last] else []
  }

  /** The rows of `tasks`. */
  function GroupKeys(tasks: seq<Task>): set<string>
    decreases |tasks|
  {
    if tasks == [] then {}
    else GroupKeys(tasks[..|tasks| - 1]) + {GroupKey(tasks[|tasks| - 1])}
  }

  /** A row holds exactly the tasks whose resource it is named after. */
  lemma {:induction false} TasksOfMembers(tasks: seq<Task>, artist: string, t: Task)
    ensures t in TasksOf(tasks, artist) <==> t in tasks && GroupKey(t) == artist
    decreases |tasks|
  {
    if tasks != [] {
      var init := tasks[..|tasks| - 1];
      TasksOfMembers(init, artist, t);
      assert tasks == init + [tasks[|tasks| - 1]];
    }
  }

  /** The rows are exactly the names some task is listed under. */
  lemma {:induction false} GroupKeysMembers(tasks: seq<Task>, artist: string)
    ensures artist in GroupKeys(tasks) <==> TasksOf(tasks, artist) != []
    decreases |tasks|
  {
    if tasks != [] {
      GroupKeysMembers(tasks[..|tasks| - 1], artist);
    }
  }

  /** In a row order that has no repeated names, "Unassigned" comes last. */
  lemma UnassignedLast(s: seq<string>)
    requires SortedBy(s, ArtistLe) && Distinct(s)
    requires Unassigned in s
    ensures s[|s| - 1] == Unassigned
  {
    var k :| 0 <= k < |s| && s[k] == Unassigned;
    if k < |s| - 1 {
      assert ArtistLe(s[k], s[|s| - 1]);
    }
  }

  lemma GroupKeysAppend(s: seq<Task>, t: Task)
    ensures GroupKeys(s + [t]) == GroupKeys(s) + {GroupKey(t)}
  {
    assert (s + [t])[..|s|] == s;
  }

  lemma TasksOfAppend(s: seq<Task>, t: Task, a: string)
    ensures TasksOf(s + [t], a) == TasksOf(s, a) + if GroupKey(t) == a then [t] else []
  {
    assert (s + [t])[..|s|] == s;
  }

  /** `keys` and `groups` hold the rows of `done`: each name once, and
      under each name that resource's tasks in their order. */
  ghost predicate Collected(keys: seq<string>, groups: map<string, seq<Task>>, done: seq<Task>) {
    && Distinct(keys)
    && (forall a :: a in keys <==> a in groups)
    && groups.Keys == GroupKeys(done)
    && (forall a :: a in groups ==> groups[a] == TasksOf(done, a))
  }

  lemma CollectStep(keys: seq<string>, groups: map<string, seq<Task>>, done: seq<Task>, t: Task)
    requires Collected(keys, groups, done)
    ensures var key := GroupKey(t);
      var keys' := if key in groups then keys else keys + [key];
      var groups' := groups[key := (if key in groups then groups[key] else []) + [t]];
      Collected(keys', groups', done + [t])
  {
    var key := GroupKey(t);
    GroupKeysAppend(done, t);
    if key !in groups {
      GroupKeysMembers(done, key);
      DistinctAppend(keys, key);
    }
    var groups' := groups[key := (if key in groups then groups[key] else []) + [t]];
    forall a | a in groups' ensures groups'[a] == TasksOf(done + [t], a) {
      TasksOfAppend(done, t, a);
    }
  }

  /** Pushes one task onto its row, opening the row when it is new. */
  method Push(keys: seq<string>, groups: map<string, seq<Task>>, ghost done: seq<Task>, t: Task)
    returns (keys': seq<string>, groups': map<string, seq<Task>>)
    requires Collected(keys, groups, done)
    ensures Collected(keys', groups', done + [t])
  {
    var key := GroupKey(t);
    CollectStep(keys, groups, done, t);
    if key in groups {
      keys', groups' := keys, groups[key := groups[key] + [t]];
    } else {
      keys', groups' := keys + [key], groups[key := [t]];
    }
  }

  /** The `forEach` that pushes every task onto its row: the row names,
      once each, and each row's tasks in their order. */
  method CollectGroups(tasks: seq<Task>) returns (keys: seq<string>, groups: map<string, seq<Task>>)
    ensures Distinct(keys)
    ensures forall a :: a in keys <==> a in GroupKeys(tasks)
    ensures groups.Keys == GroupKeys(tasks)
    ensures forall a :: a in groups ==> groups[a] == TasksOf(tasks, a)
  {
    keys := [];
    groups := map[];
    var i := 0;
    while i < |tasks|
      invariant 0 <= i <= |tasks|
      invariant Collected(keys, groups, tasks[..i])
    {
      PrefixStep(tasks, i);
      keys, groups := Push(keys, groups, tasks[..i], tasks[i]);
      i := i + 1;
    }
    assert tasks[..i] == tasks;
  }

  /** Sorts the rows named in `artists`, once each, by start date. */
  method SortGroups(artists: seq<string>, groups: map<string, seq<Task>>) returns (sorted: map<string, seq<Task>>)
    requires Distinct(artists)
    ensures sorted.Keys == groups.Keys
    ensures forall a :: a in sorted ==>
      sorted[a] == if a in artists then Sort(groups[a], StartLe) else groups[a]
  {
    sorted := groups;
    ghost var done: set<string> := {};
    var j := 0;
    while j < |artists|
      invariant 0 <= j <= |artists|
      invariant forall a :: a in done <==> a in artists[..j]
      invariant sorted.Keys == groups.Keys
      invariant forall a :: a in sorted && a in done ==> sorted[a] == Sort(groups[a], StartLe)
      invariant forall a :: a in sorted && a !in done ==> sorted[a] == groups[a]
    {
      var a := artists[j];
      assert a !in done by {
        forall k | 0 <= k < j ensures artists[k] != a {
        }
      }
      assert artists[..j + 1] == artists[..j] + [a];
      if a in sorted {
        sorted := sorted[a := Sort(sorted[a], StartLe)];
      }
      done := done + {a};
      j := j + 1;
    }
    assert artists[..j] == artists;
  }

  /** `groupedTasks`: the row names and the tasks of each row. Every task
      is listed under its resource (or "Unassigned"), rows are named once
      each in name order with "Unassigned" last, and each row holds exactly
      that resource's tasks, sorted stably by start date. */
  method GroupTasks(tasks: seq<Task>) returns (artists: seq<string>, groups: map<string, seq<Task>>)
    ensures forall a :: a in artists <==> a in GroupKeys(tasks)
    ensures Distinct(artists) && SortedBy(artists, ArtistLe)
    ensures Unassigned in artists ==> artists[|artists| - 1] == Unassigned
    ensures groups.Keys == GroupKeys(tasks)
    ensures forall a :: a in groups ==> groups[a] == Sort(TasksOf(tasks, a), StartLe)
    ensures forall a :: a in groups ==>
      SortedBy(groups[a], StartLe) && multiset(groups[a]) == multiset(TasksOf(tasks, a))
    ensures forall t :: t in tasks ==> GroupKey(t) in groups && t in groups[GroupKey(t)]
  {
    var keys, unsorted := CollectGroups(tasks);
    ArtistLeTotal();
    artists := Sort(keys, ArtistLe);
    SortSorted(keys, ArtistLe);
    SortDistinct(keys, ArtistLe);
    assert forall a :: a in artists <==> a in multiset(keys);
    if Unassigned in artists {
      UnassignedLast(artists);
    }
    groups := SortGroups(artists, unsorted);
    forall a | a in groups
      ensures SortedBy(groups[a], StartLe) && multiset(groups[a]) == multiset(TasksOf(tasks, a))
    {
      SortSorted(TasksOf(tasks, a), StartLe);
    }
    forall t | t in tasks ensures GroupKey(t) in groups && t in groups[GroupKey(t)] {
      TasksOfMembers(tasks, GroupKey(t), t);
      GroupKeysMembers(tasks, GroupKey(t));
      assert t in multiset(TasksOf(tasks, GroupKey(t)));
    }
  }
}
