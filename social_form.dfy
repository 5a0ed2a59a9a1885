/** The social-asset form (`SocialTaskModal`): the `"<platform>: "` name
    prefix that is stripped when a task is opened and put back on save, and
    the submit that builds the social task with its single production phase. */
module SocialForm {
  import opened Records

  datatype SocialForm = SocialForm(
    name: string,
    artist: string,
    platform: string,
    briefing: string,
    folderUrl: string,
    startDate: Option<Day>,
    deadline: Option<Day>)

  const DefaultPlatform: string := "Instagram"

  /** The name of the one phase a new social task gets. */
  const ProductionPhase: string := "Production"

  function Prefix(platform: string): string {
    platform + ": "
  }

  /** The stored name of a social task: `${platform}: ${name}`. */
  function ComposeName(platform: string, name: string): (r: string)
    ensures StartsWith(r, Prefix(platform))
    ensures r[|Prefix(platform)|..] == name
  {
    Prefix(platform) + name
  }

  /** The name shown in the form: the stored name without the platform
      prefix, when it has one. */
  function StripPrefix(platform: string, stored: string): (r: string)
    ensures StartsWith(stored, Prefix(platform)) ==> Prefix(platform) + r == stored
    ensures !StartsWith(stored, Prefix(platform)) ==> r == stored
  {
    var p := Prefix(platform);
    if StartsWith(stored, p) then
      assert stored == stored[..|p|] + stored[|p|..];
      stored[|p|..]
    else stored
  }

  /** Stripping the prefix from a composed name gives back the name typed. */
  lemma StripCompose(platform: string, name: string)
    ensures StripPrefix(platform, ComposeName(platform, name)) == name
  {
  }

  /** Putting the prefix back on a stripped name gives back the stored name,
      when the stored name carries the prefix of its platform. */
  lemma ComposeStrip(platform: string, stored: string)
    requires StartsWith(stored, Prefix(platform))
    ensures ComposeName(platform, StripPrefix(platform, stored)) == stored
  {
  }

  /** The form as it opens: the task being edited with its prefix stripped
      and an empty platform read as Instagram, or a form without name,
      briefing or folder link for the first resource of the roster (none
      when the roster is empty), on Instagram, starting today, with no
      deadline. */
  function Open(editing: Option<Task>, artists: seq<string>, today: Day): (f: SocialForm)
    ensures editing.Some? ==> f.name == StripPrefix(editing.value.platform, editing.value.name)
    ensures editing.Some? ==> f.platform == OrElse(editing.value.platform, DefaultPlatform)
    ensures editing.Some? ==>
      && f.artist == editing.value.artist && f.briefing == editing.value.briefing
      && f.folderUrl == editing.value.folderUrl
      && f.startDate == Some(editing.value.startDate) && f.deadline == Some(editing.value.deadline)
    ensures editing.None? ==> f.name == "" && f.platform == DefaultPlatform && f.startDate == Some(today) && f.deadline.None?
    ensures editing.None? ==> f.artist == (if |artists| > 0 then artists[0] else "") && f.briefing == "" && f.folderUrl == ""
  {
    if editing.Some? then
      var t := editing.value;
      SocialForm(StripPrefix(t.platform, t.name), t.artist, OrElse(t.platform, DefaultPlatform),
                 t.briefing, t.folderUrl, Some(t.startDate), Some(t.deadline))
    else
      var artist := if |artists| > 0 then artists[0] else "";
      SocialForm("", artist, DefaultPlatform, "", "", Some(today), None)
  }

  /** The submit button is enabled only once a name, a resource and a due
      date are filled in. */
  predicate SubmitEnabled(f: SocialForm) {
    f.name != "" && f.artist != "" && f.deadline.Some?
  }

  /** The phase a new social task is created with. */
  function ProductionPhaseFor(deadline: Day, now: nat): Phase {
    Phase("sp-" + NatToString(now), ProductionPhase, deadline, 0, Social)
  }

  /** `handleSubmit`: the start date defaults to today and the deadline to
      the start date; a new task gets a single production phase, an edited
      one keeps its phases; either way the first phase then ends on the
      deadline. */
  function Submit(f: SocialForm, editing: Option<Task>, today: Day, now: nat): (t: Task)
    ensures t.kind == SocialAsset && t.platform == f.platform
    ensures t.startDate == f.startDate.GetOr(today) && t.deadline == f.deadline.GetOr(t.startDate)
    ensures t.name == ComposeName(f.platform, f.name)
    ensures t.artist == OrElse(f.artist, Unassigned)
    ensures t.briefing == f.briefing && t.folderUrl == f.folderUrl
    ensures editing.Some? ==> t.id == editing.value.id
    ensures editing.None? ==> t.id == NatToString(now)
  {
    var start := f.startDate.GetOr(today);
    var deadline := f.deadline.GetOr(start);
    var phases := if editing.Some? then editing.value.phases else [ProductionPhaseFor(deadline, now)];
    var phases' := if |phases| > 0 then phases[0 := phases[0].(endDate := deadline)] else phases;
    Task(if editing.Some? then editing.value.id else NatToString(now), SocialAsset, OrElse(f.artist, Unassigned),
         ComposeName(f.platform, f.name), f.briefing, f.folderUrl, start, deadline, f.platform, phases')
  }

  /** A new social task has exactly one phase: "Production", social-coloured,
      at zero progress, ending on the deadline. */
  lemma NewSocialTask(f: SocialForm, today: Day, now: nat)
    ensures var t := Submit(f, None, today, now);
      t.phases == [Phase("sp-" + NatToString(now), "Production", t.deadline, 0, Social)]
  {
  }

  /** On every save the first phase ends on the deadline; an edit keeps the
      other phases as they were, and the first one's name, colour and
      progress. */
  lemma FirstPhaseOnDeadline(f: SocialForm, editing: Option<Task>, today: Day, now: nat)
    ensures var t := Submit(f, editing, today, now);
      && (|t.phases| > 0 ==> t.phases[0].endDate == t.deadline)
      && (editing.Some? ==>
            && |t.phases| == |editing.value.phases|
            && (|t.phases| > 0 ==> t.phases[0].(endDate := editing.value.phases[0].endDate) == editing.value.phases[0])
            && (forall i :: 1 <= i < |t.phases| ==> t.phases[i] == editing.value.phases[i]))
  {
  }

  /** Editing a stored social task whose name carries its platform's prefix
      and saving it without touching the name stores the same name: the
      prefix is not doubled. */
  lemma EditKeepsName(t: Task, artists: seq<string>, today: Day, now: nat)
    requires t.platform != ""
    requires StartsWith(t.name, Prefix(t.platform))
    ensures Submit(Open(Some(t), artists, today), Some(t), today, now).name == t.name
  {
    ComposeStrip(t.platform, t.name);
  }

  /** A social task saved from the form is a fixed point of editing: opening
      it and saving without changes stores the same record again. */
  lemma ResaveUnchanged(f: SocialForm, editing: Option<Task>, today: Day, now: nat,
                        artists: seq<string>, today': Day, now': nat)
    requires f.platform != ""
    ensures var t := Submit(f, editing, today, now);
      Submit(Open(Some(t), artists, today'), Some(t), today', now') == t
  {
    var t := Submit(f, editing, today, now);
    StripCompose(f.platform, f.name);
    FirstPhaseOnDeadline(f, editing, today, now);
    var t' := Submit(Open(Some(t), artists, today'), Some(t), today', now');
    assert |t.phases| > 0 ==> t.phases[0 := t.phases[0].(endDate := t.deadline)] == t.phases;
  }
}
