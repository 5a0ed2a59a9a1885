/** The project-task form (`TaskForm`): how the form is filled when it opens,
    how its phase rows are edited, and how a submit turns it into a task
    record with sorted, coloured phases and a resolved deadline. */
module ProjectForm {
  import opened Records
  import opened Sorting

  /** A phase row of the form; an empty id means the phase has none yet. */
  datatype PhaseDraft = PhaseDraft(id: string, name: string, endDate: Option<Day>, progress: int)

  datatype Form = Form(
    artist: string,
    taskName: string,
    briefing: string,
    folderUrl: string,
    startDate: Option<Day>,
    deadline: Option<Day>,
    phases: seq<PhaseDraft>)

  /** What an idea being promoted hands to the form. */
  datatype Prefill = Prefill(name: string, briefing: string)

  /** A phase row once its end date has been filled in. */
  datatype DatedDraft = DatedDraft(id: string, name: string, endDate: Day, progress: int)

  /** The row a new phase starts as: no id, no end date, no progress. */
  function BlankPhase(number: nat): PhaseDraft {
    PhaseDraft("", "Phase " + NatToString(number), None, 0)
  }

  /** The form as it opens: a copy of the task being edited, or a blank
      form (named and briefed from the idea being promoted, if any) with
      the first resource of the roster, or "Artist" when the roster is empty
      or its first name is, today's date and one blank phase. */
  function Open(editing: Option<Task>, prefill: Option<Prefill>, artists: seq<string>, today: Day): (f: Form)
    ensures editing.Some? ==> f.taskName == editing.value.name && |f.phases| == |editing.value.phases|
    ensures editing.Some? ==>
      && f.artist == editing.value.artist && f.briefing == editing.value.briefing
      && f.folderUrl == editing.value.folderUrl
      && f.startDate == Some(editing.value.startDate) && f.deadline == Some(editing.value.deadline)
    ensures editing.None? ==> f.startDate == Some(today) && f.deadline.None? && f.phases == [BlankPhase(1)]
    ensures editing.None? ==> f.artist == (if |artists| > 0 then OrElse(artists[0], "Artist") else "Artist") && f.folderUrl == ""
    ensures editing.None? ==>
      && f.taskName == (if prefill.Some? then prefill.value.name else "")
      && f.briefing == (if prefill.Some? then prefill.value.briefing else "")
  {
    if editing.Some? then
      var t := editing.value;
      Form(t.artist, t.name, t.briefing, t.folderUrl, Some(t.startDate), Some(t.deadline), Reopen(t.phases))
    else
      var artist := if |artists| > 0 then OrElse(artists[0], "Artist") else "Artist";
      var name := if prefill.Some? then prefill.value.name else "";
      var briefing := if prefill.Some? then prefill.value.briefing else "";
      Form(artist, name, briefing, "", Some(today), None, [BlankPhase(1)])
  }

  /** `handleAddPhase`: a blank row numbered after the existing ones. */
  function AddPhase(f: Form): (g: Form)
    ensures g.phases == f.phases + [BlankPhase(|f.phases| + 1)]
    ensures g.(phases := f.phases) == f
  {
    f.(phases := f.phases + [BlankPhase(|f.phases| + 1)])
  }

  /** `handlePhaseChange(idx, 'endDate', value)`. */
  function SetPhaseEnd(f: Form, idx: nat, value: Option<Day>): (g: Form)
    requires idx < |f.phases|
    ensures |g.phases| == |f.phases| && g.phases[idx].endDate == value
    ensures g.phases[idx].(endDate := f.phases[idx].endDate) == f.phases[idx]
    ensures forall k :: 0 <= k < |f.phases| && k != idx ==> g.phases[k] == f.phases[k]
    ensures g.(phases := f.phases) == f
  {
    f.(phases := f.phases[idx := f.phases[idx].(endDate := value)])
  }

  /** `handlePhaseChange(idx, 'name', value)`. */
  function SetPhaseName(f: Form, idx: nat, value: string): (g: Form)
    requires idx < |f.phases|
    ensures |g.phases| == |f.phases| && g.phases[idx].name == value
    ensures g.phases[idx].(name := f.phases[idx].name) == f.phases[idx]
    ensures forall k :: 0 <= k < |f.phases| && k != idx ==> g.phases[k] == f.phases[k]
    ensures g.(phases := f.phases) == f
  {
    f.(phases := f.phases[idx := f.phases[idx].(name := value)])
  }

  /** `handleRemovePhase(idx)`: keeps every row whose index is not `idx`. */
  function RemovePhase(f: Form, idx: nat): (g: Form)
    ensures idx < |f.phases| ==> g.phases == f.phases[..idx] + f.phases[idx + 1..]
    ensures idx >= |f.phases| ==> g == f
    ensures g.(phases := f.phases) == f
  {
    if idx < |f.phases| then f.(phases := f.phases[..idx] + f.phases[idx + 1..]) else f
  }

  /** `validPhases`: a row without an end date ends on `fallback`. */
  function Fill(drafts: seq<PhaseDraft>, fallback: Day): (r: seq<DatedDraft>)
    ensures |r| == |drafts|
    ensures forall i :: 0 <= i < |r| ==>
      r[i] == DatedDraft(drafts[i].id, drafts[i].name, drafts[i].endDate.GetOr(fallback), drafts[i].progress)
  {
    Map(drafts, (d: PhaseDraft) => DatedDraft(d.id, d.name, d.endDate.GetOr(fallback), d.progress))
  }

  /** The submit's comparator: by end date. */
  function EndLe(a: DatedDraft, b: DatedDraft): bool {
    a.endDate <= b.endDate
  }

  lemma EndLeTotal()
    ensures TotalPreorder(EndLe)
  {
  }

  const Fillers: seq<Color> := [Green, Blue, Purple, Orange]

  /** The colour of the phase at position `idx` of `n`: the last is the only
      red one, the one before it the only yellow one, and every earlier one
      takes the filler colours in turn. */
  function ColorAt(idx: nat, n: nat): (c: Color)
    requires idx < n
    ensures c == Red <==> idx == n - 1
    ensures c == Yellow <==> idx + 2 == n
    ensures idx + 2 < n ==> c == Fillers[idx % 4]
  {
    if idx == n - 1 then Red
    else if idx == n - 2 then Yellow
    else Fillers[idx % 4]
  }

  /** The id a saved phase gets: its own, or `p-<now>-<position>`. */
  function PhaseId(d: DatedDraft, now: nat, idx: nat): (id: string)
    ensures id != ""
    ensures d.id != "" ==> id == d.id
  {
    OrElse(d.id, "p-" + NatToString(now) + "-" + NatToString(idx))
  }

  /** `sortedPhases.map(...)`: the saved phase at each position. */
  function Paint(sorted: seq<DatedDraft>, now: nat): (r: seq<Phase>)
    ensures |r| == |sorted|
    ensures forall i :: 0 <= i < |r| ==>
      r[i] == Phase(PhaseId(sorted[i], now, i), sorted[i].name, sorted[i].endDate, sorted[i].progress, ColorAt(i, |sorted|))
  {
    seq(|sorted|, i requires 0 <= i < |sorted| =>
      Phase(PhaseId(sorted[i], now, i), sorted[i].name, sorted[i].endDate, sorted[i].progress, ColorAt(i, |sorted|)))
  }

  /** The deadline a saved task gets: the form's, else the end date of the
      last sorted phase, else the start date. */
  function ResolveDeadline(explicit: Option<Day>, sorted: seq<DatedDraft>, start: Day): Day {
    if explicit.Some? then explicit.value
    else if |sorted| > 0 then sorted[|sorted| - 1].endDate
    else start
  }

  /** `handleSubmit`: rejects a form without a task name or a start date;
      otherwise builds the project task. `editingId` is the id of the task
      being edited; a new task is named after `now`. */
  function Submit(f: Form, editingId: Option<string>, now: nat): (r: Option<Task>)
    ensures r.None? <==> f.taskName == "" || f.startDate.None?
    ensures r.Some? ==> r.value.kind == Project && r.value.name == f.taskName && r.value.startDate == f.startDate.value
    ensures r.Some? ==> r.value.artist == f.artist && r.value.briefing == f.briefing && r.value.folderUrl == f.folderUrl
    ensures r.Some? && editingId.Some? ==> r.value.id == editingId.value
    ensures r.Some? && editingId.None? ==> r.value.id == NatToString(now)
  {
    if f.taskName == "" || f.startDate.None? then None
    else
      var start := f.startDate.value;
      var sorted := Sort(Fill(f.phases, f.deadline.GetOr(start)), EndLe);
      Some(Task(editingId.GetOr(NatToString(now)), Project, f.artist, f.taskName, f.briefing, f.folderUrl,
                start, ResolveDeadline(f.deadline, sorted, start), "", Paint(sorted, now)))
  }

  /** What a saved phase keeps of its row: name, end date and progress. */
  function Summary(p: Phase): (string, Day, int) {
    (p.name, p.endDate, p.progress)
  }

  /** What a row becomes once a missing end date is replaced by `fallback`. */
  function DraftSummary(d: PhaseDraft, fallback: Day): (string, Day, int) {
    (d.name, d.endDate.GetOr(fallback), d.progress)
  }

  /** A saved project task has one phase per row, in non-decreasing order
      of end date, and its phases are the rows themselves (name, end date,
      progress) up to order, where a row without an end date has taken the
      form's deadline, or the start date when there is no deadline. */
  lemma {:induction false} SavedPhases(f: Form, editingId: Option<string>, now: nat)
    requires Submit(f, editingId, now).Some?
    ensures var t := Submit(f, editingId, now).value;
      && |t.phases| == |f.phases|
      && (forall i, j :: 0 <= i < j < |t.phases| ==> t.phases[i].endDate <= t.phases[j].endDate)
      && multiset(Map(t.phases, Summary))
         == multiset(Map(f.phases, (d: PhaseDraft) => DraftSummary(d, f.deadline.GetOr(f.startDate.value))))
  {
    var start := f.startDate.value;
    var fallback := f.deadline.GetOr(start);
    var filled := Fill(f.phases, fallback);
    var sorted := Sort(filled, EndLe);
    var t := Submit(f, editingId, now).value;
    EndLeTotal();
    SortSorted(filled, EndLe);
    var g := (d: DatedDraft) => (d.name, d.endDate, d.progress);
    SortMapMultiset(filled, EndLe, g);
    assert Map(t.phases, Summary) == Map(sorted, g);
    assert Map(filled, g) == Map(f.phases, (d: PhaseDraft) => DraftSummary(d, fallback));
  }

  /** Colours by position: the last phase is red, the one before it yellow,
      and every earlier phase `i` takes `[green, blue, purple, orange][i % 4]`;
      so a lone phase is red. */
  lemma SavedColors(f: Form, editingId: Option<string>, now: nat)
    requires Submit(f, editingId, now).Some?
    ensures var ps := Submit(f, editingId, now).value.phases;
      && (|ps| > 0 ==> ps[|ps| - 1].color == Red)
      && (|ps| > 1 ==> ps[|ps| - 2].color == Yellow)
      && (forall i :: 0 <= i < |ps| - 2 ==> ps[i].color == Fillers[i % 4])
      && (forall i :: 0 <= i < |ps| - 1 ==> ps[i].color != Red)
  {
  }

  /** The saved deadline is the form's deadline when one is given; else it
      is the latest phase end date (the end of the last phase), or the start
      date when there are no phases. */
  lemma SavedDeadline(f: Form, editingId: Option<string>, now: nat)
    requires Submit(f, editingId, now).Some?
    ensures var t := Submit(f, editingId, now).value;
      && (f.deadline.Some? ==> t.deadline == f.deadline.value)
      && (f.deadline.None? && |t.phases| == 0 ==> t.deadline == t.startDate)
      && (f.deadline.None? && |t.phases| > 0 ==>
            t.deadline == t.phases[|t.phases| - 1].endDate
            && forall i :: 0 <= i < |t.phases| ==> t.phases[i].endDate <= t.deadline)
  {
    SavedPhases(f, editingId, now);
  }

  /** The rows of the form opened on `t`. */
  function Reopen(ps: seq<Phase>): (r: seq<PhaseDraft>)
    ensures |r| == |ps|
    ensures forall i :: 0 <= i < |r| ==> r[i] == PhaseDraft(ps[i].id, ps[i].name, Some(ps[i].endDate), ps[i].progress)
  {
    Map(ps, (p: Phase) => PhaseDraft(p.id, p.name, Some(p.endDate), p.progress))
  }

  /** Phases that are already in end-date order, have ids and carry the
      colours of their positions come back unchanged from a submit. */
  lemma RepaintSaved(ps: seq<Phase>, fallback: Day, later: nat)
    requires forall i, j :: 0 <= i < j < |ps| ==> ps[i].endDate <= ps[j].endDate
    requires forall i :: 0 <= i < |ps| ==> ps[i].id != "" && ps[i].color == ColorAt(i, |ps|)
    ensures Paint(Sort(Fill(Reopen(ps), fallback), EndLe), later) == ps
  {
    var filled := Fill(Reopen(ps), fallback);
    assert forall i :: 0 <= i < |filled| ==> filled[i] == DatedDraft(ps[i].id, ps[i].name, ps[i].endDate, ps[i].progress);
    assert SortedBy(filled, EndLe);
    SortOfSorted(filled, EndLe);
  }

  /** Opening a saved project task for editing and submitting the form
      unchanged stores the same record again. */
  lemma ResaveUnchanged(f: Form, editingId: Option<string>, now: nat, artists: seq<string>, today: Day, later: nat)
    requires Submit(f, editingId, now).Some?
    ensures var t := Submit(f, editingId, now).value;
      Submit(Open(Some(t), None, artists, today), Some(t.id), later) == Some(t)
  {
    var t := Submit(f, editingId, now).value;
    SavedPhases(f, editingId, now);
    var g := Open(Some(t), None, artists, today);
    assert g == Form(t.artist, t.name, t.briefing, t.folderUrl, Some(t.startDate), Some(t.deadline), Reopen(t.phases));
    RepaintSaved(t.phases, t.deadline, later);
  }

  /** Submitting the blank form as it opens, once given a name, saves one red
      phase ending on the start date, which is also the deadline. */
  lemma BlankFormSave(artists: seq<string>, today: Day, name: string, now: nat)
    requires name != ""
    ensures var t := Submit(Open(None, None, artists, today).(taskName := name), None, now).value;
      && t.deadline == today
      && |t.phases| == 1
      && t.phases[0] == Phase("p-" + NatToString(now) + "-0", "Phase 1", today, 0, Red)
  {
  }

  /** A task saved from a promoted idea carries the idea's title as its name
      and the idea's description as its briefing; an idea without a title
      cannot be saved without typing a name first. */
  lemma PromotedSave(idea: Idea, artists: seq<string>, today: Day, now: nat)
    ensures var r := Submit(Open(None, Some(Prefill(idea.title, idea.description)), artists, today), None, now);
      && (r.Some? <==> idea.title != "")
      && (r.Some? ==> r.value.name == idea.title && r.value.briefing == idea.description)
  {
  }

  /** A deadline typed into the form is kept even when the last phase ends
      before it, and a form whose phase rows were all removed saves a task
      with no phases at all. */
  lemma DeadlineNotTiedToPhases(start: Day, now: nat)
    ensures var f := Form("A", "Poster", "", "", Some(start), Some(start + 10),
                          [PhaseDraft("", "Phase 1", Some(start + 5), 0)]);
      var t := Submit(f, None, now).value;
      t.deadline == start + 10 && |t.phases| == 1 && t.phases[0].endDate == start + 5
    ensures Submit(Form("A", "Poster", "", "", Some(start), None, []), None, now).value.phases == []
  {
    var d := DatedDraft("", "Phase 1", start + 5, 0);
    assert Fill([PhaseDraft("", "Phase 1", Some(start + 5), 0)], start + 10) == [d];
    assert Sort([d], EndLe) == [d] by {
      assert [d][..0] == [];
    }
  }
}
