/** The studio's in-memory state: the task list, the idea pipeline and the
    resource roster, and the handlers that change them once a remote write
    has gone through. Each handler is proved against a function on lists;
    the lemmas about those functions say what a save, a delete, a progress
    update, an idea move and a new resource do to the lists. */
module Stores {
  import opened Records
  import opened Sorting

  /** The roster a new studio starts with. */
  const InitialArtists: seq<string> := ["Salini", "Jeki"]

  // ---------------------------------------------------------------------
  // Task list

  predicate HasTask(s: seq<Task>, id: string) {
    exists i :: 0 <= i < |s| && s[i].id == id
  }

  /** `tasks.find(t => t.id === id)`: the first task with that id. */
  function FindTask(s: seq<Task>, id: string): (r: Option<Task>)
    ensures r.None? <==> !HasTask(s, id)
    ensures r.Some? ==> r.value in s && r.value.id == id
    ensures r.Some? ==> exists j :: 0 <= j < |s| && s[j] == r.value && forall k :: 0 <= k < j ==> s[k].id != id
    decreases |s|
  {
    if s == [] then None
    else if s[0].id == id then Some(s[0])
    else
      var r := FindTask(s[1..], id);
      assert forall i :: 1 <= i < |s| ==> s[1..][i - 1] == s[i];
      assert r.Some? ==> exists j :: 0 <= j < |s| && s[j] == r.value && forall k :: 0 <= k < j ==> s[k].id != id by {
        if r.Some? {
          var j :| 0 <= j < |s[1..]| && s[1..][j] == r.value && forall k :: 0 <= k < j ==> s[1..][k].id != id;
          assert s[j + 1] == r.value;
          forall k | 0 <= k < j + 1 ensures s[k].id != id {
            if k > 0 {
              assert s[k] == s[1..][k - 1];
            }
          }
        }
      }
      r
  }

  /** Every task with id `id` replaced by `x`, every other one kept. */
  function ReplaceTask(s: seq<Task>, id: string, x: Task): (r: seq<Task>)
    ensures |r| == |s|
    ensures forall i :: 0 <= i < |s| ==> r[i] == if s[i].id == id then x else s[i]
  {
    seq(|s|, i requires 0 <= i < |s| => if s[i].id == id then x else s[i])
  }

  /** The list after `handleSaveTask`: the saved task replaces every entry
      with its id in place, or is appended when there is none. */
  function Upsert(s: seq<Task>, t: Task): (r: seq<Task>)
    ensures HasTask(s, t.id) ==> |r| == |s|
    ensures !HasTask(s, t.id) ==> r == s + [t]
    ensures t in r
    ensures forall i :: 0 <= i < |s| && s[i].id != t.id ==> r[i] == s[i]
    ensures forall u :: u in r ==> u == t || (u in s && u.id != t.id)
  {
    if HasTask(s, t.id) then ReplaceTask(s, t.id, t) else s + [t]
  }

  /** The list after `handleDeleteTask`: every task with the id dropped,
      the others kept in order. */
  function RemoveTask(s: seq<Task>, id: string): (r: seq<Task>)
    ensures |r| <= |s|
    ensures forall u :: u in r <==> u in s && u.id != id
    decreases |s|
  {
    if s == [] then []
    else
      assert forall u :: u in s <==> u == s[0] || u in s[1..];
      (if s[0].id == id then [] else [s[0]]) + RemoveTask(s[1..], id)
  }

  /** A delete filters: it works element by element, keeping each task with
      another id in its place and its multiplicity, so it distributes over
      concatenation and keeps a single task exactly when its id differs. */
  lemma {:induction false} RemoveTaskAppend(s1: seq<Task>, s2: seq<Task>, id: string, t: Task)
    ensures RemoveTask(s1 + s2, id) == RemoveTask(s1, id) + RemoveTask(s2, id)
    ensures RemoveTask([t], id) == if t.id == id then [] else [t]
    decreases |s1|
  {
    assert [t][1..] == [];
    if s1 == [] {
      assert s1 + s2 == s2;
    } else {
      assert (s1 + s2)[0] == s1[0];
      assert (s1 + s2)[1..] == s1[1..] + s2;
      RemoveTaskAppend(s1[1..], s2, id, t);
    }
  }

  /** Reading a task back after a save finds the saved task; any other id
      finds what it found before. */
  lemma {:induction false} FindAfterUpsert(s: seq<Task>, t: Task, k: string)
    ensures FindTask(Upsert(s, t), k) == if k == t.id then Some(t) else FindTask(s, k)
  {
    if HasTask(s, t.id) {
      FindAfterReplace(s, t.id, t, k);
    } else {
      FindAfterAppend(s, t, k);
    }
  }

  lemma {:induction false} FindAfterReplace(s: seq<Task>, id: string, x: Task, k: string)
    requires x.id == id && HasTask(s, id)
    ensures FindTask(ReplaceTask(s, id, x), k) == if k == id then Some(x) else FindTask(s, k)
    decreases |s|
  {
    var r := ReplaceTask(s, id, x);
    if s[0].id == id {
      assert r[0] == x;
      if k != id {
        FindSkip(r, k);
        FindSkip(s, k);
        assert r[1..] == ReplaceTask(s[1..], id, x);
        FindAfterReplaceOther(s[1..], id, x, k);
      }
    } else {
      assert r[0] == s[0];
      assert r[1..] == ReplaceTask(s[1..], id, x);
      assert HasTask(s[1..], id) by {
        var i :| 0 <= i < |s| && s[i].id == id;
        assert s[1..][i - 1] == s[i];
      }
      FindAfterReplace(s[1..], id, x, k);
    }
  }

  /** Replacing the entries of one id does not change what another id finds. */
  lemma {:induction false} FindAfterReplaceOther(s: seq<Task>, id: string, x: Task, k: string)
    requires x.id == id && k != id
    ensures FindTask(ReplaceTask(s, id, x), k) == FindTask(s, k)
    decreases |s|
  {
    if s != [] {
      var r := ReplaceTask(s, id, x);
      assert r[1..] == ReplaceTask(s[1..], id, x);
      FindAfterReplaceOther(s[1..], id, x, k);
    }
  }

  lemma FindSkip(s: seq<Task>, k: string)
    requires s != [] && s[0].id != k
    ensures FindTask(s, k) == FindTask(s[1..], k)
  {
  }

  lemma {:induction false} FindAfterAppend(s: seq<Task>, t: Task, k: string)
    requires !HasTask(s, t.id)
    ensures FindTask(s + [t], k) == if k == t.id then Some(t) else FindTask(s, k)
    decreases |s|
  {
    if s != [] {
      assert (s + [t])[1..] == s[1..] + [t];
      assert !HasTask(s[1..], t.id) by {
        forall i | 0 <= i < |s[1..]| ensures s[1..][i].id != t.id {
          assert s[1..][i] == s[i + 1];
        }
      }
      FindAfterAppend(s[1..], t, k);
    }
  }

  /** Saving the same task twice is saving it once. */
  lemma UpsertIdempotent(s: seq<Task>, t: Task)
    ensures Upsert(Upsert(s, t), t) == Upsert(s, t)
  {
    var r := Upsert(s, t);
    assert t in r;
    var j :| 0 <= j < |r| && r[j] == t;
    assert HasTask(r, t.id);
    var r2 := Upsert(r, t);
    forall i | 0 <= i < |r| ensures r2[i] == r[i] {
      if r[i].id == t.id {
        assert r[i] == t;
      }
    }
  }

  /** A save keeps the ids of the list pairwise different. */
  lemma UpsertUnique(s: seq<Task>, t: Task)
    requires UniqueTaskIds(s)
    ensures UniqueTaskIds(Upsert(s, t))
  {
    var r := Upsert(s, t);
    if HasTask(s, t.id) {
      forall i, j | 0 <= i < j < |r| ensures r[i].id != r[j].id {
        if s[i].id == t.id {
          assert s[j].id != t.id;
        }
      }
    }
  }

  /** Deleting a task after saving it is deleting it: a save followed by a
      delete of the same id leaves what the delete alone leaves. */
  lemma {:induction false} RemoveAfterUpsert(s: seq<Task>, t: Task)
    ensures RemoveTask(Upsert(s, t), t.id) == RemoveTask(s, t.id)
  {
    if HasTask(s, t.id) {
      RemoveAfterReplace(s, t.id, t);
    } else {
      RemoveAfterAppend(s, t);
    }
  }

  lemma {:induction false} RemoveAfterReplace(s: seq<Task>, id: string, x: Task)
    requires x.id == id
    ensures RemoveTask(ReplaceTask(s, id, x), id) == RemoveTask(s, id)
    decreases |s|
  {
    if s != [] {
      var r := ReplaceTask(s, id, x);
      assert r[1..] == ReplaceTask(s[1..], id, x);
      RemoveAfterReplace(s[1..], id, x);
    }
  }

  lemma {:induction false} RemoveAfterAppend(s: seq<Task>, t: Task)
    ensures RemoveTask(s + [t], t.id) == RemoveTask(s, t.id)
    decreases |s|
  {
    if s == [] {
      assert RemoveTask([t], t.id) == [] + RemoveTask([], t.id);
    } else {
      assert (s + [t])[1..] == s[1..] + [t];
      RemoveAfterAppend(s[1..], t);
    }
  }

  /** After a delete no task with that id is found; any other id finds
      what it found before. */
  lemma {:induction false} FindAfterRemove(s: seq<Task>, id: string, k: string)
    ensures FindTask(RemoveTask(s, id), k) == if k == id then None else FindTask(s, k)
    decreases |s|
  {
    if s != [] {
      var rest := RemoveTask(s[1..], id);
      FindAfterRemove(s[1..], id, k);
      if s[0].id == id {
        assert RemoveTask(s, id) == rest;
        if k != id {
          FindSkip(s, k);
        }
      } else {
        var r := [s[0]] + rest;
        assert RemoveTask(s, id) == r;
        assert r[1..] == rest;
        if s[0].id != k {
          FindSkip(r, k);
          FindSkip(s, k);
        }
      }
    }
  }

  /** A delete keeps the ids of the list pairwise different. */
  lemma {:induction false} RemoveUnique(s: seq<Task>, id: string)
    requires UniqueTaskIds(s)
    ensures UniqueTaskIds(RemoveTask(s, id))
    decreases |s|
  {
    if s != [] {
      assert UniqueTaskIds(s[1..]) by {
        forall i, j | 0 <= i < j < |s[1..]| ensures s[1..][i].id != s[1..][j].id {
          assert s[1..][i] == s[i + 1] && s[1..][j] == s[j + 1];
        }
      }
      RemoveUnique(s[1..], id);
      var rest := RemoveTask(s[1..], id);
      if s[0].id != id {
        var r := [s[0]] + rest;
        forall i, j | 0 <= i < j < |r| ensures r[i].id != r[j].id {
          assert r[j] == rest[j - 1];
          if i == 0 {
            assert rest[j - 1] in s[1..];
            var k :| 0 <= k < |s[1..]| && s[1..][k] == rest[j - 1];
            assert s[k + 1] == rest[j - 1];
          } else {
            assert r[i] == rest[i - 1];
          }
        }
      }
    }
  }

  // ---------------------------------------------------------------------
  // Phase progress

  /** The phases with `progress` of the phase(s) with id `pid` set to `val`. */
  function SetProgress(phases: seq<Phase>, pid: string, val: int): (r: seq<Phase>)
    ensures |r| == |phases|
    ensures forall i :: 0 <= i < |r| ==> r[i].(progress := phases[i].progress) == phases[i]
    ensures forall i :: 0 <= i < |r| ==> r[i].progress == if phases[i].id == pid then val else phases[i].progress
  {
    seq(|phases|, i requires 0 <= i < |phases| =>
      if phases[i].id == pid then phases[i].(progress := val) else phases[i])
  }

  /** The task `t` after `handleUpdateProgress` has changed its phase `pid`. */
  function WithProgress(t: Task, pid: string, val: int): (r: Task)
    ensures r.(phases := t.phases) == t
    ensures r.phases == SetProgress(t.phases, pid, val)
  {
    t.(phases := SetProgress(t.phases, pid, val))
  }

  /** The list after `handleUpdateProgress`: the first task with id `tid`,
      its phase `pid` set to `val`, is written over every entry with that
      id; without such a task nothing changes. */
  function UpdateProgress(s: seq<Task>, tid: string, pid: string, val: int): (r: seq<Task>)
    ensures |r| == |s|
    ensures forall i :: 0 <= i < |s| && s[i].id != tid ==> r[i] == s[i]
    ensures !HasTask(s, tid) ==> r == s
  {
    match FindTask(s, tid)
    case None => s
    case Some(t) => ReplaceTask(s, tid, WithProgress(t, pid, val))
  }

  /** In a list without repeated ids, a progress update changes one field of
      one phase of one task: the `progress` of each phase with id `pid` in
      the task with id `tid` becomes `val`; everything else stays. */
  lemma ProgressChangesOnePhase(s: seq<Task>, tid: string, pid: string, val: int, i: nat)
    requires UniqueTaskIds(s)
    requires i < |s|
    ensures var r := UpdateProgress(s, tid, pid, val);
      if s[i].id == tid then r[i] == s[i].(phases := SetProgress(s[i].phases, pid, val))
      else r[i] == s[i]
  {
    if s[i].id == tid {
      FirstTaskIsOnly(s, tid, i);
    }
  }

  lemma {:induction false} FirstTaskIsOnly(s: seq<Task>, id: string, i: nat)
    requires UniqueTaskIds(s)
    requires i < |s| && s[i].id == id
    ensures FindTask(s, id) == Some(s[i])
    decreases |s|
  {
    if i > 0 {
      assert s[0].id != id;
      assert UniqueTaskIds(s[1..]) by {
        forall a, b | 0 <= a < b < |s[1..]| ensures s[1..][a].id != s[1..][b].id {
          assert s[1..][a] == s[a + 1] && s[1..][b] == s[b + 1];
        }
      }
      assert s[1..][i - 1] == s[i];
      FirstTaskIsOnly(s[1..], id, i - 1);
    }
  }

  /** A progress update is the save of the updated task: it is what the
      handler sends to the store, and the list changes exactly as if that
      task had been saved. */
  lemma ProgressIsSave(s: seq<Task>, tid: string, pid: string, val: int)
    requires HasTask(s, tid)
    ensures UpdateProgress(s, tid, pid, val) == Upsert(s, WithProgress(FindTask(s, tid).value, pid, val))
  {
  }

  // ---------------------------------------------------------------------
  // Idea pipeline

  function StageIndex(st: Stage): (k: nat)
    ensures k < 3
  {
    match st
    case Inbox => 0
    case Developing => 1
    case Ready => 2
  }

  function StageAt(k: nat): (st: Stage)
    requires k < 3
    ensures StageIndex(st) == k
  {
    if k == 0 then Inbox else if k == 1 then Developing else Ready
  }

  /** The stage `dir` steps from `st` in the order inbox, developing,
      ready, or None when that falls outside the pipeline. */
  function MoveTarget(st: Stage, dir: int): (r: Option<Stage>)
    ensures r.Some? <==> 0 <= StageIndex(st) + dir < 3
    ensures r.Some? ==> StageIndex(r.value) == StageIndex(st) + dir
  {
    var k := StageIndex(st) + dir;
    if 0 <= k < 3 then Some(StageAt(k)) else None
  }

  /** Stepping back undoes a step forward, and the other way round. */
  lemma MoveAndBack(st: Stage, dir: int)
    requires MoveTarget(st, dir).Some?
    ensures MoveTarget(MoveTarget(st, dir).value, -dir) == Some(st)
  {
    var back := MoveTarget(MoveTarget(st, dir).value, -dir);
    assert StageIndex(back.value) == StageIndex(st);
    StageIndexInjective(back.value, st);
  }

  lemma StageIndexInjective(a: Stage, b: Stage)
    requires StageIndex(a) == StageIndex(b)
    ensures a == b
  {
  }

  /** Every idea with id `id` replaced by `x`, every other one kept. */
  function ReplaceIdea(s: seq<Idea>, id: string, x: Idea): (r: seq<Idea>)
    ensures |r| == |s|
    ensures forall i :: 0 <= i < |s| ==> r[i] == if s[i].id == id then x else s[i]
  {
    seq(|s|, i requires 0 <= i < |s| => if s[i].id == id then x else s[i])
  }

  /** The list after `handleMoveIdea(i, dir)`: the idea, at its new stage,
      over every entry with its id; nothing changes when the move would
      leave the pipeline. */
  function MoveIdea(s: seq<Idea>, i: Idea, dir: int): (r: seq<Idea>)
    ensures |r| == |s|
    ensures MoveTarget(i.stage, dir).None? ==> r == s
    ensures forall k :: 0 <= k < |s| && s[k].id != i.id ==> r[k] == s[k]
  {
    match MoveTarget(i.stage, dir)
    case None => s
    case Some(st) => ReplaceIdea(s, i.id, i.(stage := st))
  }

  /** Moving an idea of the list changes that idea's stage and nothing
      else: every idea keeps its id, title and description, and only the
      moved one gets a new stage. */
  lemma MoveChangesOnlyStage(s: seq<Idea>, i: Idea, dir: int, k: nat)
    requires UniqueIdeaIds(s)
    requires i in s
    requires k < |s|
    requires MoveTarget(i.stage, dir).Some?
    ensures var r := MoveIdea(s, i, dir);
      && r[k].(stage := s[k].stage) == s[k]
      && r[k].stage == if s[k] == i then MoveTarget(i.stage, dir).value else s[k].stage
  {
    var j :| 0 <= j < |s| && s[j] == i;
    if s[k].id == i.id {
      assert k == j;
    }
  }

  /** Moving an idea one way and then back restores the pipeline. */
  lemma MoveThereAndBack(s: seq<Idea>, i: Idea, dir: int)
    requires UniqueIdeaIds(s)
    requires i in s
    requires MoveTarget(i.stage, dir).Some?
    ensures var moved := i.(stage := MoveTarget(i.stage, dir).value);
      MoveIdea(MoveIdea(s, i, dir), moved, -dir) == s
  {
    var moved := i.(stage := MoveTarget(i.stage, dir).value);
    MoveAndBack(i.stage, dir);
    var r := MoveIdea(s, i, dir);
    var r2 := MoveIdea(r, moved, -dir);
    var j :| 0 <= j < |s| && s[j] == i;
    forall k | 0 <= k < |s| ensures r2[k] == s[k] {
      if s[k].id == i.id {
        assert k == j;
      }
    }
  }

  /** Replacing the ideas of one id by an idea with that id keeps the ids
      of the pipeline pairwise different. */
  lemma ReplaceIdeaUnique(s: seq<Idea>, x: Idea)
    requires UniqueIdeaIds(s)
    ensures UniqueIdeaIds(ReplaceIdea(s, x.id, x))
  {
    var r := ReplaceIdea(s, x.id, x);
    forall a, b | 0 <= a < b < |r| ensures r[a].id != r[b].id {
      assert r[a].id == s[a].id && r[b].id == s[b].id;
    }
  }

  /** A move keeps the ids of the pipeline pairwise different. */
  lemma MoveUnique(s: seq<Idea>, i: Idea, dir: int)
    requires UniqueIdeaIds(s)
    ensures UniqueIdeaIds(MoveIdea(s, i, dir))
  {
    match MoveTarget(i.stage, dir)
    case None =>
    case Some(st) => ReplaceIdeaUnique(s, i.(stage := st));
  }

  /** Every idea with id `id` dropped, the others kept in order. */
  function RemoveIdea(s: seq<Idea>, id: string): (r: seq<Idea>)
    ensures |r| <= |s|
    ensures forall x :: x in r <==> x in s && x.id != id
    decreases |s|
  {
    if s == [] then []
    else
      assert forall x :: x in s <==> x == s[0] || x in s[1..];
      (if s[0].id == id then [] else [s[0]]) + RemoveIdea(s[1..], id)
  }

  /** Removing ideas filters element by element, as `RemoveTaskAppend`
      says of tasks. */
  lemma {:induction false} RemoveIdeaAppend(s1: seq<Idea>, s2: seq<Idea>, id: string, x: Idea)
    ensures RemoveIdea(s1 + s2, id) == RemoveIdea(s1, id) + RemoveIdea(s2, id)
    ensures RemoveIdea([x], id) == if x.id == id then [] else [x]
    decreases |s1|
  {
    assert [x][1..] == [];
    if s1 == [] {
      assert s1 + s2 == s2;
    } else {
      assert (s1 + s2)[0] == s1[0];
      assert (s1 + s2)[1..] == s1[1..] + s2;
      RemoveIdeaAppend(s1[1..], s2, id, x);
    }
  }

  lemma {:induction false} RemoveIdeaUnique(s: seq<Idea>, id: string)
    requires UniqueIdeaIds(s)
    ensures UniqueIdeaIds(RemoveIdea(s, id))
    decreases |s|
  {
    if s != [] {
      assert UniqueIdeaIds(s[1..]) by {
        forall i, j | 0 <= i < j < |s[1..]| ensures s[1..][i].id != s[1..][j].id {
          assert s[1..][i] == s[i + 1] && s[1..][j] == s[j + 1];
        }
      }
      RemoveIdeaUnique(s[1..], id);
      var rest := RemoveIdea(s[1..], id);
      if s[0].id != id {
        var r := [s[0]] + rest;
        forall i, j | 0 <= i < j < |r| ensures r[i].id != r[j].id {
          assert r[j] == rest[j - 1];
          if i == 0 {
            assert rest[j - 1] in s[1..];
            var k :| 0 <= k < |s[1..]| && s[1..][k] == rest[j - 1];
            assert s[k + 1] == rest[j - 1];
          } else {
            assert r[i] == rest[i - 1];
          }
        }
      }
    }
  }

  predicate HasIdea(s: seq<Idea>, id: string) {
    exists i :: 0 <= i < |s| && s[i].id == id
  }

  /** The ideas after a save, with the promoted idea also dropped from the
      list in memory, as `handleDeleteIdea` does. */
  function IdeasAfterSave(s: seq<Idea>, promoted: Option<string>): (r: seq<Idea>)
    ensures promoted.None? ==> r == s
    ensures promoted.Some? ==> !HasIdea(r, promoted.value)
    ensures promoted.Some? ==> forall x :: x in r <==> x in s && x.id != promoted.value
  {
    match promoted
    case None => s
    case Some(id) => RemoveIdea(s, id)
  }

  // ---------------------------------------------------------------------
  // Resource roster

  /** The roster after `handleAddResource(name)`: the name appended when it
      is not there yet. */
  function AddName(roster: seq<string>, name: string): (r: seq<string>)
    ensures name in r
    ensures roster <= r && |r| <= |roster| + 1
    ensures name in roster ==> r == roster
    ensures forall x :: x in r <==> x in roster || x == name
  {
    if name in roster then roster else roster + [name]
  }

  /** A roster without repeated names keeps that property. */
  lemma AddNameDistinct(roster: seq<string>, name: string)
    requires Distinct(roster)
    ensures Distinct(AddName(roster, name))
  {
    if name !in roster {
      DistinctAppend(roster, name);
    }
  }

  // ---------------------------------------------------------------------
  // The state

  /** The state `App` keeps: whether someone is signed in, and the three
      lists. A handler does nothing while nobody is signed in. */
  class Studio {
    var signedIn: bool
    var tasks: seq<Task>
    var ideas: seq<Idea>
    var artists: seq<string>

    /** No two tasks and no two ideas share an id, and no resource is
        listed twice. */
    ghost predicate Valid()
      reads this
    {
      UniqueTaskIds(tasks) && UniqueIdeaIds(ideas) && Distinct(artists)
    }

    constructor (signedIn: bool)
      ensures this.signedIn == signedIn
      ensures tasks == [] && ideas == [] && artists == InitialArtists
      ensures Valid()
    {
      this.signedIn := signedIn;
      tasks := [];
      ideas := [];
      artists := InitialArtists;
    }

    /** `handleSaveTask`: upserts the task. A promoted idea is deleted from
        the remote store only; the idea list in memory stays as it was. */
    method SaveTask(task: Task, promoted: Option<string>)
      modifies this
      ensures signedIn == old(signedIn) && ideas == old(ideas) && artists == old(artists)
      ensures tasks == if signedIn then Upsert(old(tasks), task) else old(tasks)
      ensures old(Valid()) ==> Valid()
    {
      if signedIn {
        if Valid() {
          UpsertUnique(tasks, task);
        }
        tasks := Upsert(tasks, task);
      }
    }

    /** `handleSaveTask` as evidently intended: the promoted idea also
        leaves the idea list in memory, as `handleDeleteIdea` makes it do. */
    method SaveTaskRetiringIdea(task: Task, promoted: Option<string>)
      modifies this
      ensures signedIn == old(signedIn) && artists == old(artists)
      ensures tasks == if signedIn then Upsert(old(tasks), task) else old(tasks)
      ensures ideas == if signedIn then IdeasAfterSave(old(ideas), promoted) else old(ideas)
      ensures old(Valid()) ==> Valid()
    {
      if signedIn {
        if Valid() {
          UpsertUnique(tasks, task);
          if promoted.Some? {
            RemoveIdeaUnique(ideas, promoted.value);
          }
        }
        tasks := Upsert(tasks, task);
        ideas := IdeasAfterSave(ideas, promoted);
      }
    }

    /** `handleDeleteTask`. */
    method DeleteTask(task: Task)
      modifies this
      ensures signedIn == old(signedIn) && ideas == old(ideas) && artists == old(artists)
      ensures tasks == if signedIn then RemoveTask(old(tasks), task.id) else old(tasks)
      ensures old(Valid()) ==> Valid()
    {
      if signedIn {
        if Valid() {
          RemoveUnique(tasks, task.id);
        }
        tasks := RemoveTask(tasks, task.id);
      }
    }

    /** `handleUpdateProgress`. */
    method UpdatePhaseProgress(tid: string, pid: string, val: int)
      modifies this
      ensures signedIn == old(signedIn) && ideas == old(ideas) && artists == old(artists)
      ensures tasks == if signedIn then UpdateProgress(old(tasks), tid, pid, val) else old(tasks)
      ensures old(Valid()) ==> Valid()
    {
      var found := FindTask(tasks, tid);
      if found.Some? && signedIn {
        var updated := WithProgress(found.value, pid, val);
        if Valid() {
          ProgressIsSave(tasks, tid, pid, val);
          UpsertUnique(tasks, updated);
        }
        tasks := ReplaceTask(tasks, tid, updated);
      }
    }

    /** `handleMoveIdea`. */
    method Move(i: Idea, dir: int)
      modifies this
      ensures signedIn == old(signedIn) && tasks == old(tasks) && artists == old(artists)
      ensures ideas == if signedIn then MoveIdea(old(ideas), i, dir) else old(ideas)
      ensures old(Valid()) ==> Valid()
    {
      if signedIn {
        var k := StageIndex(i.stage) + dir;
        if 0 <= k < 3 {
          if Valid() {
            MoveUnique(ideas, i, dir);
          }
          ideas := ReplaceIdea(ideas, i.id, i.(stage := StageAt(k)));
        }
      }
    }

    /** `handleAddIdea`: the idea is appended under the id `String(now)`.
        Ids stay unique unless an idea already has that id. */
    method AddIdea(i: Idea, now: nat)
      modifies this
      ensures signedIn == old(signedIn) && tasks == old(tasks) && artists == old(artists)
      ensures ideas == if signedIn then old(ideas) + [i.(id := NatToString(now))] else old(ideas)
      ensures old(Valid()) && !HasIdea(old(ideas), NatToString(now)) ==> Valid()
    {
      if signedIn {
        ideas := ideas + [i.(id := NatToString(now))];
      }
    }

    /** `handleUpdateIdea`: the edited idea, which carries every field,
        replaces the entry with its id. */
    method UpdateIdea(i: Idea)
      modifies this
      ensures signedIn == old(signedIn) && tasks == old(tasks) && artists == old(artists)
      ensures ideas == if signedIn then ReplaceIdea(old(ideas), i.id, i) else old(ideas)
      ensures old(Valid()) ==> Valid()
    {
      if signedIn {
        if Valid() {
          ReplaceIdeaUnique(ideas, i);
        }
        ideas := ReplaceIdea(ideas, i.id, i);
      }
    }

    /** `handleDeleteIdea`. */
    method DeleteIdea(id: string)
      modifies this
      ensures signedIn == old(signedIn) && tasks == old(tasks) && artists == old(artists)
      ensures ideas == if signedIn then RemoveIdea(old(ideas), id) else old(ideas)
      ensures old(Valid()) ==> Valid()
    {
      if signedIn {
        if Valid() {
          RemoveIdeaUnique(ideas, id);
        }
        ideas := RemoveIdea(ideas, id);
      }
    }

    /** `handleAddResource`. */
    method AddResource(name: string)
      modifies this
      ensures signedIn == old(signedIn) && tasks == old(tasks) && ideas == old(ideas)
      ensures artists == if signedIn then AddName(old(artists), name) else old(artists)
      ensures old(Valid()) ==> Valid()
    {
      if signedIn && name !in artists {
        if Valid() {
          AddNameDistinct(artists, name);
        }
        artists := artists + [name];
      }
    }
  }

  // ---------------------------------------------------------------------
  // A promoted idea after its task is saved

  /** The task a promoted idea "Launch" turns into. */
  function LaunchTask(): Task {
    Task("2", Project, "", "Launch", "", "", 0, 0, "", [])
  }

  /** As written, a promoted idea outlives the save of its task: an idea
      added under the id "1" and promoted is still in the pipeline after its
      task has been saved. */
  method PromotedIdeaLingers() returns (ideas: seq<Idea>)
    ensures ideas == [Idea("1", "Launch", "", Ready)]
    ensures HasIdea(ideas, "1")
  {
    var studio := new Studio(true);
    studio.AddIdea(Idea("", "Launch", "", Ready), 1);
    assert NatToString(1) == "1";
    studio.SaveTask(LaunchTask(), Some("1"));
    ideas := studio.ideas;
    assert ideas[0].id == "1";
  }

  /** With the correction, the same sequence leaves the pipeline empty. */
  method PromotedIdeaRetired() returns (ideas: seq<Idea>)
    ensures ideas == []
    ensures !HasIdea(ideas, "1")
  {
    var studio := new Studio(true);
    studio.AddIdea(Idea("", "Launch", "", Ready), 1);
    assert NatToString(1) == "1";
    studio.SaveTaskRetiringIdea(LaunchTask(), Some("1"));
    ideas := studio.ideas;
  }
}
