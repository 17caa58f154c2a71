/** Tag ownership operations of src/models/tagModel.ts over the tag table. */
module TagModel {
  import opened Records
  import opened Store

  /** The colour a tag gets when it is created without one (see README). */
  const DefaultColor: Color := Slate

  /** An update request: absent fields keep their stored value. */
  datatype TagPatch = TagPatch(name: Option<string>, color: Option<Color>)

  /** getTagsForUser: exactly the tags the user owns, in table order. */
  function GetTagsForUser(tags: seq<Tag>, userId: int): (r: seq<Tag>)
    ensures forall t :: t in r <==> t in tags && t.userId == userId
    ensures |r| <= |tags|
  {
    if tags == [] then []
    else (if tags[0].userId == userId then [tags[0]] else []) + GetTagsForUser(tags[1..], userId)
  }

  /** Listing distributes over a table split in two; so a tag appended for one
      user shows up at the end of that user's list and nowhere else. */
  lemma {:induction false} GetTagsForUserAppend(a: seq<Tag>, b: seq<Tag>, userId: int)
    ensures GetTagsForUser(a + b, userId) == GetTagsForUser(a, userId) + GetTagsForUser(b, userId)
  {
    if a == [] {
      assert a + b == b;
    } else {
      assert (a + b)[1..] == a[1..] + b;
      GetTagsForUserAppend(a[1..], b, userId);
    }
  }

  /** createTagForUser: appends one tag owned by the user, with the given name
      and the given colour or the column default. */
  method CreateTagForUser(db: Db, userId: int, name: string, color: Option<Color>) returns (t: Tag)
    requires db.Valid()
    modifies db
    ensures db.Valid()
    ensures t == Tag(old(db.nextTagId), userId, name, color.GetOr(DefaultColor))
    ensures db.tags == old(db.tags) + [t]
    ensures GetTagsForUser(db.tags, userId) == GetTagsForUser(old(db.tags), userId) + [t]
    ensures forall u :: u != userId ==> GetTagsForUser(db.tags, u) == GetTagsForUser(old(db.tags), u)
    ensures db.nextTagId == old(db.nextTagId) + 1
    ensures db.entries == old(db.entries) && db.running == old(db.running) && db.nextEntryId == old(db.nextEntryId)
  {
    t := Tag(db.nextTagId, userId, name, color.GetOr(DefaultColor));
    forall u ensures GetTagsForUser(db.tags + [t], u) == GetTagsForUser(db.tags, u) + GetTagsForUser([t], u) {
      GetTagsForUserAppend(db.tags, [t], u);
    }
    db.tags := db.tags + [t];
    db.nextTagId := db.nextTagId + 1;
  }

  /** findFirst by id and owner. */
  function FindTag(tags: seq<Tag>, id: int, userId: int): (r: Option<Tag>)
    ensures r.Some? ==> r.value in tags && r.value.id == id && r.value.userId == userId
    ensures r.None? <==> forall t :: t in tags ==> !(t.id == id && t.userId == userId)
  {
    if tags == [] then None
    else if tags[0].id == id && tags[0].userId == userId then Some(tags[0])
    else FindTag(tags[1..], id, userId)
  }

  function ApplyTagPatch(t: Tag, p: TagPatch): Tag {
    t.(name := p.name.GetOr(t.name), color := p.color.GetOr(t.color))
  }

  /** The table after updating the row with the given id. */
  function UpdateTagById(tags: seq<Tag>, id: int, p: TagPatch): seq<Tag> {
    seq(|tags|, i requires 0 <= i < |tags| => if tags[i].id == id then ApplyTagPatch(tags[i], p) else tags[i])
  }

  /** updateTagForUser: none, and no change, when the tag is missing or owned by
      someone else; otherwise the tag with the supplied fields replaced. */
  method UpdateTagForUser(db: Db, userId: int, tagId: int, patch: TagPatch) returns (r: Option<Tag>)
    requires db.Valid()
    modifies db
    ensures db.Valid()
    ensures FindTag(old(db.tags), tagId, userId).None? ==> r.None? && db.tags == old(db.tags)
    ensures FindTag(old(db.tags), tagId, userId).Some? ==>
      && r == Some(ApplyTagPatch(FindTag(old(db.tags), tagId, userId).value, patch))
      && db.tags == UpdateTagById(old(db.tags), tagId, patch)
    ensures r.Some? ==> r.value in db.tags && r.value.userId == userId && r.value.id == tagId
    ensures db.entries == old(db.entries) && db.running == old(db.running)
    ensures db.nextEntryId == old(db.nextEntryId) && db.nextTagId == old(db.nextTagId)
  {
    var tag := FindTag(db.tags, tagId, userId);
    if tag.None? {
      return None;
    }
    var k :| 0 <= k < |db.tags| && db.tags[k] == tag.value;
    db.tags := UpdateTagById(db.tags, tagId, patch);
    assert db.tags[k] == ApplyTagPatch(tag.value, patch);
    r := Some(db.tags[k]);
  }

  /** A successful update rewrites only the target tag, and only the supplied
      fields; its owner and id stay. */
  lemma UpdateTagChangesOnlyTarget(tags: seq<Tag>, id: int, p: TagPatch, i: int)
    requires 0 <= i < |tags|
    ensures |UpdateTagById(tags, id, p)| == |tags|
    ensures tags[i].id != id ==> UpdateTagById(tags, id, p)[i] == tags[i]
    ensures tags[i].id == id ==>
      var n := UpdateTagById(tags, id, p)[i];
      && n.id == id && n.userId == tags[i].userId
      && n.name == (if p.name.Some? then p.name.value else tags[i].name)
      && n.color == (if p.color.Some? then p.color.value else tags[i].color)
  {
  }
}
