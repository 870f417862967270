/** The viewer's own annotations on a pull request (domain/value-objects/UserMetadata.ts). */
module UserMetadataVO {
  import opened Wrappers
  import opened Text

  datatype Priority = Low | Medium | High

  datatype UserMetadata = UserMetadata(
    notes: Option<string>,
    tags: Option<seq<string>>,
    priority: Option<Priority>,
    customStatus: Option<string>)

  /** The optional argument of `UserMetadata.create`; every field may be absent. */
  datatype MetadataData = MetadataData(
    notes: Option<string>,
    tags: Option<seq<string>>,
    priority: Option<Priority>,
    customStatus: Option<string>)

  /** `create(data?)`: copies whatever fields `data` has. */
  function Create(data: Option<MetadataData>): (m: UserMetadata)
    ensures data.None? ==> m.notes.None? && m.tags.None? && m.priority.None? && m.customStatus.None?
    ensures data.Some? ==> m == UserMetadata(data.value.notes, data.value.tags,
                                             data.value.priority, data.value.customStatus)
  {
    match data
    case None => UserMetadata(None, None, None, None)
    case Some(d) => UserMetadata(d.notes, d.tags, d.priority, d.customStatus)
  }

  function UpdateNotes(m: UserMetadata, notes: string): (r: UserMetadata)
    ensures r.notes == Some(notes)
    ensures r.tags == m.tags && r.priority == m.priority && r.customStatus == m.customStatus
  {
    UserMetadata(Some(notes), m.tags, m.priority, m.customStatus)
  }

  function UpdateTags(m: UserMetadata, tags: seq<string>): (r: UserMetadata)
    ensures r.tags == Some(tags)
    ensures r.notes == m.notes && r.priority == m.priority && r.customStatus == m.customStatus
  {
    UserMetadata(m.notes, Some(tags), m.priority, m.customStatus)
  }

  function UpdatePriority(m: UserMetadata, priority: Priority): (r: UserMetadata)
    ensures r.priority == Some(priority)
    ensures r.notes == m.notes && r.tags == m.tags && r.customStatus == m.customStatus
  {
    UserMetadata(m.notes, m.tags, Some(priority), m.customStatus)
  }

  function UpdateCustomStatus(m: UserMetadata, customStatus: string): (r: UserMetadata)
    ensures r.customStatus == Some(customStatus)
    ensures r.notes == m.notes && r.tags == m.tags && r.priority == m.priority
  {
    UserMetadata(m.notes, m.tags, m.priority, Some(customStatus))
  }

  /** Notes are present and not whitespace only. */
  function HasNotes(m: UserMetadata): (r: bool)
    ensures r <==> m.notes.Some? && exists i :: 0 <= i < |m.notes.value| && !IsWhitespace(m.notes.value[i])
  {
    m.notes.Some? && m.notes.value != [] && |Trim(m.notes.value)| > 0
  }

  /** Tags are present and non-empty. */
  function HasTags(m: UserMetadata): (r: bool)
    ensures r <==> m.tags.Some? && m.tags.value != []
  {
    m.tags.Some? && |m.tags.value| > 0
  }

  /** Updating notes with blank text leaves `hasNotes` false; with any visible character, true. */
  lemma UpdateNotesDecidesHasNotes(m: UserMetadata, notes: string)
    ensures HasNotes(UpdateNotes(m, notes)) <==> !IsBlank(notes)
    ensures HasTags(UpdateNotes(m, notes)) == HasTags(m)
  {
  }
}
