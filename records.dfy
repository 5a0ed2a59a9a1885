/** The records the studio tracker keeps: tasks with their phases, ideas,
    and the small text helpers the forms use to build names and ids.
    Calendar dates are day numbers; a date field of a form that may be left
    empty is an Option. */
module Records {

  datatype Option<T> = None | Some(value: T) {
    function GetOr(default: T): T {
      match this
      case Some(v) => v
      case None => default
    }
  }

  /** A calendar date, as a number of days from a fixed origin. */
  type Day = int

  /** The palette a phase bar is drawn in. */
  datatype Color = Green | Yellow | Red | Blue | Orange | Purple | Social

  datatype TaskKind = Project | SocialAsset

  datatype Phase = Phase(id: string, name: string, endDate: Day, progress: int, color: Color)

  /** `platform` is the empty string on project tasks, which have no platform. */
  datatype Task = Task(
    id: string,
    kind: TaskKind,
    artist: string,
    name: string,
    briefing: string,
    folderUrl: string,
    startDate: Day,
    deadline: Day,
    platform: string,
    phases: seq<Phase>)

  datatype Stage = Inbox | Developing | Ready

  datatype Idea = Idea(id: string, title: string, description: string, stage: Stage)

  const Unassigned: string := "Unassigned"

  /** `a || b` on strings: the empty string is falsy. */
  function OrElse(a: string, b: string): (r: string)
    ensures a != "" ==> r == a
    ensures a == "" ==> r == b
  {
    if a != "" then a else b
  }

  function DigitChar(d: nat): (c: char)
    requires d < 10
    ensures '0' <= c <= '9'
  {
    "0123456789"[d]
  }

  /** `String(n)` for a non-negative integer: its decimal digits. */
  function NatToString(n: nat): (r: string)
    ensures |r| >= 1
    ensures forall i :: 0 <= i < |r| ==> '0' <= r[i] <= '9'
    decreases n
  {
    if n < 10 then [DigitChar(n)] else NatToString(n / 10) + [DigitChar(n % 10)]
  }

  /** True when `p` is a prefix of `s` (`s.startsWith(p)`). */
  predicate StartsWith(s: string, p: string) {
    |p| <= |s| && s[..|p|] == p
  }

  /** Ids of a sequence of tasks are pairwise different. */
  ghost predicate UniqueTaskIds(s: seq<Task>) {
    forall i, j :: 0 <= i < j < |s| ==> s[i].id != s[j].id
  }

  ghost predicate UniqueIdeaIds(s: seq<Idea>) {
    forall i, j :: 0 <= i < j < |s| ==> s[i].id != s[j].id
  }
}
