/** Records shared by every part of the time-tracking backend: the rows of the
    entry, tag and running-entry tables, the tag colour palette, and the
    half-open interval overlap that the whole store is kept free of. */
module Records {

  datatype Option<T> = None | Some(value: T) {
    function GetOr(default: T): T {
      match this
      case Some(v) => v
      case None => default
    }
  }

  datatype Result<T, E> = Success(value: T) | Failure(error: E)

  /** The fixed tag colour palette accepted by the tag validator. */
  datatype Color = Slate | Red | Amber | Lime | Emerald | Cyan | Blue | Violet | Fuchsia

  /** The palette name of a colour, as it is stored and exported. */
  function ColorName(c: Color): string {
    match c
    case Slate => "slate"
    case Red => "red"
    case Amber => "amber"
    case Lime => "lime"
    case Emerald => "emerald"
    case Cyan => "cyan"
    case Blue => "blue"
    case Violet => "violet"
    case Fuchsia => "fuchsia"
  }

  /** Reads a palette name back; any other string is not a colour. */
  function ParseColor(s: string): (r: Option<Color>)
    ensures r.Some? ==> ColorName(r.value) == s
    ensures r.None? ==> forall c: Color :: ColorName(c) != s
  {
    if s == "slate" then Some(Slate)
    else if s == "red" then Some(Red)
    else if s == "amber" then Some(Amber)
    else if s == "lime" then Some(Lime)
    else if s == "emerald" then Some(Emerald)
    else if s == "cyan" then Some(Cyan)
    else if s == "blue" then Some(Blue)
    else if s == "violet" then Some(Violet)
    else if s == "fuchsia" then Some(Fuchsia)
    else None
  }

  /** Every colour name reads back as the colour it names. */
  lemma ColorRoundTrip(c: Color)
    ensures ParseColor(ColorName(c)) == Some(c)
  {
  }

  /** A committed entry: a closed interval of integer Unix seconds. */
  datatype Entry = Entry(id: int, userId: int, name: string, startTimeUtc: int, endTimeUtc: int, tagId: int)

  /** A user-owned label with a colour. */
  datatype Tag = Tag(id: int, userId: int, name: string, color: Color)

  /** The open-ended, in-progress interval of a user (no end time). */
  datatype RunningEntry = RunningEntry(userId: int, name: string, startTimeUtc: int, tagId: int)

  /** The key the store orders entries by. */
  function StartTime(e: Entry): int { e.startTimeUtc }

  /** Non-empty intersection of the half-open ranges [start, end). */
  predicate Overlaps(a: Entry, b: Entry) {
    a.startTimeUtc < b.endTimeUtc && b.startTimeUtc < a.endTimeUtc
  }

  /** The global store invariant: no two entries of one user overlap. */
  ghost predicate NoOverlapPerUser(es: seq<Entry>) {
    forall i, j :: 0 <= i < j < |es| && es[i].userId == es[j].userId ==> !Overlaps(es[i], es[j])
  }

  /** The first tag with the given id, as a relation lookup returns it. */
  function TagById(tags: seq<Tag>, id: int): (r: Option<Tag>)
    ensures r.Some? ==> r.value in tags && r.value.id == id
    ensures r.None? <==> forall t :: t in tags ==> t.id != id
  {
    if tags == [] then None
    else if tags[0].id == id then Some(tags[0])
    else TagById(tags[1..], id)
  }
}
