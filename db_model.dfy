/** The bulk import and the export of src/models/dbModel.ts over the store.
    Reading the uploaded CSV text into records is outside the model: the
    import takes the parsed records. */
module DbModel {
  import opened Records
  import opened Sorting
  import opened Store
  import opened EntryModel
  import opened TagModel

  datatype ImportTag = ImportTag(name: string, color: string)

  /** One record of an import or an export. */
  datatype ImportData = ImportData(name: string, startTimeUtc: int, endTimeUtc: int, tag: Option<ImportTag>)

  /** A tag or a record the import could not take. */
  datatype ImportError =
    | TagCreateFailed(tagName: string)
    | NoTagId(tagName: string)
    | EntryOverlaps(itemName: string, existing: Entry)
    | EntryCreateFailed(itemName: string)

  /** The import report; the error list is absent when there are no errors. */
  datatype ImportSummary = ImportSummary(tagsCreated: nat, entriesCreated: nat, errors: Option<seq<ImportError>>)

  /** The tag name a record without one is filed under. */
  const NoProject: string := "No Project"

  // ---------------------------------------------------------------------------
  // The tag-name map and the tags to create

  /** The name-to-id map seeded from a user's tags in table order: of two tags
      with the same name, the later one wins. */
  function SeedMap(tags: seq<Tag>): (m: map<string, int>)
    ensures forall i :: 0 <= i < |tags| ==> tags[i].name in m
    ensures forall name :: name in m ==> exists i :: 0 <= i < |tags| && tags[i].name == name && tags[i].id == m[name]
  {
    if tags == [] then map[]
    else
      var p, t := tags[..|tags| - 1], tags[|tags| - 1];
      assert forall i :: 0 <= i < |p| ==> p[i] == tags[i];
      SeedMap(p)[t.name := t.id]
  }

  /** A record names a tag when it has one with a non-empty name. */
  predicate HasTagName(item: ImportData) {
    item.tag.Some? && item.tag.value.name != ""
  }

  /** The keys of the unique-tag map: each tag name the records name, once,
      in order of first appearance. */
  function UniqueTagNames(data: seq<ImportData>): (r: seq<string>)
    ensures forall i, j :: 0 <= i < j < |r| ==> r[i] != r[j]
    ensures forall name :: name in r <==> exists i :: 0 <= i < |data| && HasTagName(data[i]) && data[i].tag.value.name == name
  {
    if data == [] then []
    else
      var p, item := data[..|data| - 1], data[|data| - 1];
      var o := UniqueTagNames(p);
      assert forall i :: 0 <= i < |p| ==> p[i] == data[i];
      if HasTagName(item) && item.tag.value.name !in o then o + [item.tag.value.name] else o
  }

  /** The value the unique-tag map keeps for a name: the colour of its last record. */
  function LastColor(data: seq<ImportData>, name: string): string {
    if data == [] then ""
    else
      var item := data[|data| - 1];
      if HasTagName(item) && item.tag.value.name == name then item.tag.value.color
      else LastColor(data[..|data| - 1], name)
  }

  /** The state of the tag loop: the map, the tags created, the errors so far. */
  datatype TagPhase = TagPhase(tagMap: map<string, int>, created: seq<Tag>, errors: seq<ImportError>)

  /** One name of the tag loop: a name already in the map is skipped;
      otherwise the tag is created with the name's colour, which fails when
      the colour is not in the palette. */
  function TagStep(ph: TagPhase, name: string, data: seq<ImportData>, userId: int, nextTagId: int): TagPhase {
    if name in ph.tagMap then ph
    else match ParseColor(LastColor(data, name))
      case None => ph.(errors := ph.errors + [TagCreateFailed(name)])
      case Some(c) =>
        var t := Tag(nextTagId + |ph.created|, userId, name, c);
        ph.(tagMap := ph.tagMap[name := t.id], created := ph.created + [t])
  }

  /** The tag loop over the given names, new ids following on from nextTagId. */
  function CreateTags(seed: map<string, int>, names: seq<string>, data: seq<ImportData>,
                      userId: int, nextTagId: int): TagPhase
  {
    if names == [] then TagPhase(seed, [], [])
    else TagStep(CreateTags(seed, names[..|names| - 1], data, userId, nextTagId), names[|names| - 1], data, userId, nextTagId)
  }

  /** Whether the loop creates a tag for this name. */
  predicate Creates(seed: map<string, int>, data: seq<ImportData>, name: string) {
    name !in seed && ParseColor(LastColor(data, name)).Some?
  }

  /** The names of a list the map does not hold yet. */
  function NewNames(seed: map<string, int>, names: seq<string>): nat {
    if names == [] then 0
    else NewNames(seed, names[..|names| - 1]) + (if names[|names| - 1] in seed then 0 else 1)
  }

  /** No name occurs twice. */
  predicate Distinct(names: seq<string>) {
    names == [] || (Distinct(names[..|names| - 1]) && names[|names| - 1] !in names[..|names| - 1])
  }

  /** The unique-tag names are distinct. */
  lemma {:induction false} UniqueTagNamesDistinct(data: seq<ImportData>)
    ensures Distinct(UniqueTagNames(data))
  {
    if data != [] {
      var p := data[..|data| - 1];
      UniqueTagNamesDistinct(p);
      var o := UniqueTagNames(p);
      assert forall i :: 0 <= i < |p| ==> p[i] == data[i];
      if UniqueTagNames(data) != o {
        assert UniqueTagNames(data)[..|o|] == o;
      }
    }
  }

  /** Record a names the tag x. */
  predicate NamesAt(data: seq<ImportData>, a: int, x: string) {
    0 <= a < |data| && HasTagName(data[a]) && data[a].tag.value.name == x
  }

  /** x is named by some record before any record names y. */
  ghost predicate Before(data: seq<ImportData>, x: string, y: string) {
    exists a :: NamesAt(data, a, x) && forall b :: 0 <= b <= a ==> !NamesAt(data, b, y)
  }

  /** More records after the first mention of x keep x before y. */
  lemma BeforeExtends(data: seq<ImportData>, item: ImportData, x: string, y: string)
    requires Before(data, x, y)
    ensures Before(data + [item], x, y)
  {
    var a :| NamesAt(data, a, x) && forall b :: 0 <= b <= a ==> !NamesAt(data, b, y);
    var d := data + [item];
    assert NamesAt(d, a, x);
    forall b | 0 <= b <= a ensures !NamesAt(d, b, y) {
      assert !NamesAt(data, b, y);
      assert b < |data| && d[b] == data[b];
    }
  }

  /** The unique-tag names come in order of first appearance in the records,
      the order the map's keys are iterated in. */
  lemma {:induction false} UniqueTagNamesOrder(data: seq<ImportData>)
    ensures forall i, j :: 0 <= i < j < |UniqueTagNames(data)| ==>
              Before(data, UniqueTagNames(data)[i], UniqueTagNames(data)[j])
  {
    if data != [] {
      var p, item := data[..|data| - 1], data[|data| - 1];
      assert data == p + [item];
      UniqueTagNamesOrder(p);
      var o, r := UniqueTagNames(p), UniqueTagNames(data);
      assert forall i :: 0 <= i < |p| ==> p[i] == data[i];
      assert r[..|o|] == o;
      forall i, j | 0 <= i < j < |r| ensures Before(data, r[i], r[j]) {
        if j < |o| {
          assert r[i] == o[i] && r[j] == o[j];
          BeforeExtends(p, item, o[i], o[j]);
        } else {
          // r[j] is the last record's name, new to the earlier records
          assert r[i] == o[i] && o[i] in o;
          var a :| 0 <= a < |p| && HasTagName(p[a]) && p[a].tag.value.name == o[i];
          assert NamesAt(data, a, r[i]);
          forall b | 0 <= b <= a ensures !NamesAt(data, b, r[j]) {
            assert data[b] == p[b];
          }
        }
      }
    }
  }

  /** Over distinct names, the tag loop keeps the seeded names as they are and
      adds exactly the new names whose colour is in the palette. */
  lemma {:induction false} CreateTagsMap(seed: map<string, int>, names: seq<string>, data: seq<ImportData>,
                                         userId: int, nextTagId: int)
    requires Distinct(names)
    ensures var ph := CreateTags(seed, names, data, userId, nextTagId);
      && (forall name :: name in ph.tagMap <==> name in seed || (name in names && Creates(seed, data, name)))
      && (forall name :: name in seed ==> ph.tagMap[name] == seed[name])
  {
    if names != [] {
      var p, name := names[..|names| - 1], names[|names| - 1];
      assert forall i :: 0 <= i < |p| ==> p[i] == names[i];
      assert names == p + [name];
      CreateTagsMap(seed, p, data, userId, nextTagId);
    }
  }

  /** Each created tag belongs to the user, has the next free id in turn, is
      named by one of the new names and carries that name's last colour; the
      map sends its name to its id. */
  lemma {:induction false} CreateTagsCreated(seed: map<string, int>, names: seq<string>, data: seq<ImportData>,
                                             userId: int, nextTagId: int)
    requires Distinct(names)
    ensures var ph := CreateTags(seed, names, data, userId, nextTagId);
      forall i :: 0 <= i < |ph.created| ==>
        && ph.created[i].id == nextTagId + i && ph.created[i].userId == userId
        && ph.created[i].name in names && Creates(seed, data, ph.created[i].name)
        && Some(ph.created[i].color) == ParseColor(LastColor(data, ph.created[i].name))
        && ph.created[i].name in ph.tagMap && ph.tagMap[ph.created[i].name] == ph.created[i].id
  {
    if names != [] {
      var p, name := names[..|names| - 1], names[|names| - 1];
      assert names == p + [name];
      CreateTagsMap(seed, p, data, userId, nextTagId);
      CreateTagsCreated(seed, p, data, userId, nextTagId);
      TagStepKeepsCreatedOk(CreateTags(seed, p, data, userId, nextTagId), seed, p, name, data, userId, nextTagId);
    }
  }

  /** The created tags of a phase are well formed for the names seen so far. */
  ghost predicate CreatedOk(ph: TagPhase, seed: map<string, int>, names: seq<string>, data: seq<ImportData>,
                            userId: int, nextTagId: int) {
    forall i :: 0 <= i < |ph.created| ==>
      && ph.created[i].id == nextTagId + i && ph.created[i].userId == userId
      && ph.created[i].name in names && Creates(seed, data, ph.created[i].name)
      && Some(ph.created[i].color) == ParseColor(LastColor(data, ph.created[i].name))
      && ph.created[i].name in ph.tagMap && ph.tagMap[ph.created[i].name] == ph.created[i].id
  }

  /** One step of the tag loop keeps the created tags well formed. */
  lemma TagStepKeepsCreatedOk(ph: TagPhase, seed: map<string, int>, names: seq<string>, name: string,
                              data: seq<ImportData>, userId: int, nextTagId: int)
    requires CreatedOk(ph, seed, names, data, userId, nextTagId)
    requires forall n :: n in seed ==> n in ph.tagMap
    ensures CreatedOk(TagStep(ph, name, data, userId, nextTagId), seed, names + [name], data, userId, nextTagId)
  {
    var r := TagStep(ph, name, data, userId, nextTagId);
    forall i | 0 <= i < |r.created|
      ensures && r.created[i].id == nextTagId + i && r.created[i].userId == userId
              && r.created[i].name in names + [name] && Creates(seed, data, r.created[i].name)
              && Some(r.created[i].color) == ParseColor(LastColor(data, r.created[i].name))
              && r.created[i].name in r.tagMap && r.tagMap[r.created[i].name] == r.created[i].id
    {
      if i < |ph.created| {
        assert r.created[i] == ph.created[i];
      }
    }
  }

  /** x occurs before y in the list of names. */
  ghost predicate InOrder(names: seq<string>, x: string, y: string) {
    exists a, b :: 0 <= a < b < |names| && names[a] == x && names[b] == y
  }

  /** The tags are created in the order of their names in the list. */
  lemma {:induction false} CreateTagsOrder(seed: map<string, int>, names: seq<string>, data: seq<ImportData>,
                                           userId: int, nextTagId: int)
    requires Distinct(names)
    ensures forall i, j :: 0 <= i < j < |CreateTags(seed, names, data, userId, nextTagId).created| ==>
              InOrder(names, CreateTags(seed, names, data, userId, nextTagId).created[i].name,
                      CreateTags(seed, names, data, userId, nextTagId).created[j].name)
  {
    if names != [] {
      var p, name := names[..|names| - 1], names[|names| - 1];
      assert names == p + [name];
      CreateTagsOrder(seed, p, data, userId, nextTagId);
      CreateTagsCreated(seed, p, data, userId, nextTagId);
      assert forall i :: 0 <= i < |CreateTags(seed, p, data, userId, nextTagId).created| ==>
        CreateTags(seed, p, data, userId, nextTagId).created[i].name in p;
      TagStepOrder(CreateTags(seed, p, data, userId, nextTagId), p, name, data, userId, nextTagId);
    }
  }

  /** One pass of the tag loop appends after the tags of earlier names. */
  lemma TagStepOrder(ph: TagPhase, names: seq<string>, name: string, data: seq<ImportData>,
                     userId: int, nextTagId: int)
    requires forall i :: 0 <= i < |ph.created| ==> ph.created[i].name in names
    requires forall i, j :: 0 <= i < j < |ph.created| ==> InOrder(names, ph.created[i].name, ph.created[j].name)
    ensures forall i, j :: 0 <= i < j < |TagStep(ph, name, data, userId, nextTagId).created| ==>
              InOrder(names + [name], TagStep(ph, name, data, userId, nextTagId).created[i].name,
                      TagStep(ph, name, data, userId, nextTagId).created[j].name)
  {
    var r := TagStep(ph, name, data, userId, nextTagId);
    var all := names + [name];
    TagStepCreated(ph, name, data, userId, nextTagId);
    forall i, j | 0 <= i < j < |r.created| ensures InOrder(all, r.created[i].name, r.created[j].name) {
      assert r.created[i] == ph.created[i];
      if j < |ph.created| {
        assert r.created[j] == ph.created[j];
        var a, b :| 0 <= a < b < |names| && names[a] == ph.created[i].name && names[b] == ph.created[j].name;
        assert all[a] == names[a] && all[b] == names[b];
      } else {
        // the one tag this step appends is the last name's
        var a :| 0 <= a < |names| && names[a] == ph.created[i].name;
        assert all[a] == names[a] && all[|names|] == name;
      }
    }
  }

  /** An import creates the new tags in the order their names first appear in
      the records, so tag ids follow that order. */
  lemma ImportTagsOrder(tags: seq<Tag>, nextTagId: int, userId: int, data: seq<ImportData>, tp: TagPhase)
    requires tp == CreateTags(SeedMap(GetTagsForUser(tags, userId)), UniqueTagNames(data), data, userId, nextTagId)
    ensures forall i, j :: 0 <= i < j < |tp.created| ==>
              tp.created[i].id < tp.created[j].id && Before(data, tp.created[i].name, tp.created[j].name)
  {
    var names := UniqueTagNames(data);
    UniqueTagNamesDistinct(data);
    UniqueTagNamesOrder(data);
    CreateTagsOrder(SeedMap(GetTagsForUser(tags, userId)), names, data, userId, nextTagId);
    CreateTagsCreated(SeedMap(GetTagsForUser(tags, userId)), names, data, userId, nextTagId);
    forall i, j | 0 <= i < j < |tp.created|
      ensures Before(data, tp.created[i].name, tp.created[j].name)
    {
      var a, b :| 0 <= a < b < |names| && names[a] == tp.created[i].name && names[b] == tp.created[j].name;
    }
  }

  /** One step only appends to the created tags, and appends the name's tag
      when the name is new and its colour is in the palette. */
  lemma TagStepCreated(ph: TagPhase, name: string, data: seq<ImportData>, userId: int, nextTagId: int)
    ensures var r := TagStep(ph, name, data, userId, nextTagId);
      && |r.created| >= |ph.created| && r.created[..|ph.created|] == ph.created
      && (name !in ph.tagMap && ParseColor(LastColor(data, name)).Some? ==>
            |r.created| == |ph.created| + 1 && r.created[|ph.created|].name == name)
  {
  }

  /** Every new name with a palette colour gets its tag. */
  lemma {:induction false} CreateTagsCovers(seed: map<string, int>, names: seq<string>, data: seq<ImportData>,
                                            userId: int, nextTagId: int, name: string)
    requires Distinct(names)
    requires name in names && Creates(seed, data, name)
    ensures exists i :: 0 <= i < |CreateTags(seed, names, data, userId, nextTagId).created|
                        && CreateTags(seed, names, data, userId, nextTagId).created[i].name == name
  {
    var p, last := names[..|names| - 1], names[|names| - 1];
    assert forall i :: 0 <= i < |p| ==> p[i] == names[i];
    assert names == p + [last];
    CreateTagsMap(seed, p, data, userId, nextTagId);
    var q := CreateTags(seed, p, data, userId, nextTagId);
    var ph := CreateTags(seed, names, data, userId, nextTagId);
    assert ph == TagStep(q, last, data, userId, nextTagId);
    TagStepCreated(q, last, data, userId, nextTagId);
    if name == last {
      assert last !in p;
      assert ph.created[|q.created|].name == name;
    } else {
      assert name in p;
      CreateTagsCovers(seed, p, data, userId, nextTagId, name);
      var i :| 0 <= i < |q.created| && q.created[i].name == name;
      assert ph.created[..|q.created|] == q.created;
      assert ph.created[i] == ph.created[..|q.created|][i];
      assert ph.created[i].name == name;
    }
  }

  /** Every new name yields either a tag or one error, and errors only come
      from colours outside the palette: with palette colours there are none. */
  lemma {:induction false} CreateTagsErrors(seed: map<string, int>, names: seq<string>, data: seq<ImportData>,
                                            userId: int, nextTagId: int)
    requires Distinct(names)
    ensures var ph := CreateTags(seed, names, data, userId, nextTagId);
      && |ph.created| + |ph.errors| == NewNames(seed, names)
      && (forall e :: e in ph.errors ==> e.TagCreateFailed? && e.tagName in names && e.tagName !in seed
                                         && ParseColor(LastColor(data, e.tagName)).None?)
      && ((forall name :: name in names ==> ParseColor(LastColor(data, name)).Some?) ==> ph.errors == [])
  {
    if names != [] {
      var p, name := names[..|names| - 1], names[|names| - 1];
      assert forall i :: 0 <= i < |p| ==> p[i] == names[i];
      assert names == p + [name];
      CreateTagsMap(seed, p, data, userId, nextTagId);
      CreateTagsErrors(seed, p, data, userId, nextTagId);
    }
  }

  // ---------------------------------------------------------------------------
  // The record loop

  /** The state of the record loop: the entry table, its next id, how many
      entries were created and the errors so far. */
  datatype EntryPhase = EntryPhase(entries: seq<Entry>, nextEntryId: int, created: nat, errors: seq<ImportError>)

  /** The tag name a record is filed under: its own, or "No Project". */
  function ResolvedTagName(item: ImportData): string {
    if HasTagName(item) then item.tag.value.name else NoProject
  }

  /** Whether the map yields a usable id for the name (a missing or zero id does not). */
  predicate Resolves(tagMap: map<string, int>, name: string) {
    name in tagMap && tagMap[name] != 0
  }

  /** One record: an error when its tag does not resolve, an error naming the
      conflicting entry when it overlaps one of the user's entries (those
      imported before it included), and otherwise a new entry. */
  function ImportItem(ph: EntryPhase, userId: int, tagMap: map<string, int>, item: ImportData): EntryPhase {
    var tagName := ResolvedTagName(item);
    if !Resolves(tagMap, tagName) then ph.(errors := ph.errors + [NoTagId(tagName)])
    else match FindOverlappingEntry(ph.entries, userId, item.startTimeUtc, item.endTimeUtc, None)
      case Some(o) => ph.(errors := ph.errors + [EntryOverlaps(item.name, o)])
      case None =>
        var e := Entry(ph.nextEntryId, userId, item.name, item.startTimeUtc, item.endTimeUtc, tagMap[tagName]);
        ph.(entries := ph.entries + [e], nextEntryId := ph.nextEntryId + 1, created := ph.created + 1)
  }

  /** The record loop over the given records, in order. */
  function ImportItems(ph: EntryPhase, userId: int, tagMap: map<string, int>, items: seq<ImportData>): EntryPhase {
    if items == [] then ph
    else ImportItem(ImportItems(ph, userId, tagMap, items[..|items| - 1]), userId, tagMap, items[|items| - 1])
  }

  /** Every record ends up either as an entry or as exactly one error. */
  lemma {:induction false} ImportItemsCounts(ph: EntryPhase, userId: int, tagMap: map<string, int>, items: seq<ImportData>)
    ensures var r := ImportItems(ph, userId, tagMap, items);
      r.created + |r.errors| == ph.created + |ph.errors| + |items|
  {
    if items != [] {
      ImportItemsCounts(ph, userId, tagMap, items[..|items| - 1]);
    }
  }

  /** The record loop only appends entries of the user, with fresh ids, and
      keeps every user's entries pairwise disjoint, whatever the records. */
  lemma {:induction false} ImportItemsKeepsStore(ph: EntryPhase, userId: int, tagMap: map<string, int>, items: seq<ImportData>)
    requires 1 <= ph.nextEntryId && EntryIdsValid(ph.entries, ph.nextEntryId) && NoOverlapPerUser(ph.entries)
    ensures var r := ImportItems(ph, userId, tagMap, items);
      && 1 <= r.nextEntryId && EntryIdsValid(r.entries, r.nextEntryId) && NoOverlapPerUser(r.entries)
      && |r.entries| == |ph.entries| + (r.created - ph.created) && r.created >= ph.created
      && r.entries[..|ph.entries|] == ph.entries
      && r.nextEntryId == ph.nextEntryId + (r.created - ph.created)
      && forall i :: |ph.entries| <= i < |r.entries| ==> r.entries[i].userId == userId
  {
    if items != [] {
      var q := ImportItems(ph, userId, tagMap, items[..|items| - 1]);
      ImportItemsKeepsStore(ph, userId, tagMap, items[..|items| - 1]);
      var item := items[|items| - 1];
      var tagName := ResolvedTagName(item);
      if Resolves(tagMap, tagName) && FindOverlappingEntry(q.entries, userId, item.startTimeUtc, item.endTimeUtc, None).None? {
        var e := Entry(q.nextEntryId, userId, item.name, item.startTimeUtc, item.endTimeUtc, tagMap[tagName]);
        InsertKeepsNoOverlap(q.entries, e);
        assert (q.entries + [e])[..|ph.entries|] == q.entries[..|ph.entries|];
      }
    }
  }

  /** A record that appears twice is imported at most once: the second copy
      is checked against the first, whose interval contains its own. */
  lemma RepeatedRecordImportedOnce(ph: EntryPhase, userId: int, tagMap: map<string, int>, item: ImportData)
    ensures ImportItems(ph, userId, tagMap, [item, item]).created <= ph.created + 1
  {
    assert [item, item][..1] == [item];
    assert [item][..0] == [];
    var first := ImportItem(ph, userId, tagMap, item);
    assert ImportItems(ph, userId, tagMap, [item]) == first;
    assert ImportItems(ph, userId, tagMap, [item, item]) == ImportItem(first, userId, tagMap, item);
    if first.created == ph.created + 1 {
      var e := first.entries[|first.entries| - 1];
      assert e in first.entries && Conflicts(e, userId, item.startTimeUtc, item.endTimeUtc, None);
    }
  }

  // ---------------------------------------------------------------------------
  // The record loop as written

  /** One record as the code runs it: the overlap check is imported from a
      module that does not export it, so the call throws for every record
      whose tag resolves, and the handler reports the entry as not created. */
  function ImportItemAsWritten(ph: EntryPhase, tagMap: map<string, int>, item: ImportData): EntryPhase {
    var tagName := ResolvedTagName(item);
    if !Resolves(tagMap, tagName) then ph.(errors := ph.errors + [NoTagId(tagName)])
    else ph.(errors := ph.errors + [EntryCreateFailed(item.name)])
  }

  function ImportItemsAsWritten(ph: EntryPhase, tagMap: map<string, int>, items: seq<ImportData>): EntryPhase {
    if items == [] then ph
    else ImportItemAsWritten(ImportItemsAsWritten(ph, tagMap, items[..|items| - 1]), tagMap, items[|items| - 1])
  }

  /** As written, an import never creates an entry: every record becomes an error. */
  lemma {:induction false} AsWrittenImportsNothing(ph: EntryPhase, tagMap: map<string, int>, items: seq<ImportData>)
    ensures var r := ImportItemsAsWritten(ph, tagMap, items);
      r.entries == ph.entries && r.created == ph.created && |r.errors| == |ph.errors| + |items|
  {
    if items != [] {
      AsWrittenImportsNothing(ph, tagMap, items[..|items| - 1]);
    }
  }

  /** One record into an empty table under a known tag: the intended loop
      creates it, the loop as written does not. */
  lemma AsWrittenLosesRecord()
    ensures var ph, m := EntryPhase([], 1, 0, []), map["Work" := 1];
      var item := ImportData("Report", 0, 3600, Some(ImportTag("Work", "blue")));
      && ImportItems(ph, 7, m, [item]).created == 1
      && ImportItemsAsWritten(ph, m, [item]).created == 0
  {
    var ph, m := EntryPhase([], 1, 0, []), map["Work" := 1];
    var item := ImportData("Report", 0, 3600, Some(ImportTag("Work", "blue")));
    assert [item][..0] == [];
    assert ResolvedTagName(item) == "Work";
  }

  // ---------------------------------------------------------------------------
  // processImportData

  /** The first loop: the user's tags into the name-to-id map. */
  method SeedTagMap(existingTags: seq<Tag>) returns (tagMap: map<string, int>)
    ensures tagMap == SeedMap(existingTags)
  {
    tagMap := map[];
    for i := 0 to |existingTags|
      invariant tagMap == SeedMap(existingTags[..i])
    {
      assert existingTags[..i + 1][..i] == existingTags[..i];
      tagMap := tagMap[existingTags[i].name := existingTags[i].id];
    }
    assert existingTags[..|existingTags|] == existingTags;
  }

  /** The second loop: the unique-tag map, its keys in insertion order. */
  method CollectUniqueTags(data: seq<ImportData>) returns (uniqueTags: map<string, string>, uniqueOrder: seq<string>)
    ensures uniqueOrder == UniqueTagNames(data)
    ensures forall name :: name in uniqueTags <==> name in uniqueOrder
    ensures forall name :: name in uniqueOrder ==> uniqueTags[name] == LastColor(data, name)
  {
    uniqueTags, uniqueOrder := map[], [];
    for i := 0 to |data|
      invariant uniqueOrder == UniqueTagNames(data[..i])
      invariant forall name :: name in uniqueTags <==> name in uniqueOrder
      invariant forall name :: name in uniqueOrder ==> uniqueTags[name] == LastColor(data[..i], name)
    {
      var item := data[i];
      assert data[..i + 1][..i] == data[..i];
      if item.tag.Some? && item.tag.value.name != "" {
        if item.tag.value.name !in uniqueTags {
          uniqueOrder := uniqueOrder + [item.tag.value.name];
        }
        uniqueTags := uniqueTags[item.tag.value.name := item.tag.value.color];
      }
    }
    assert data[..|data|] == data;
  }

  /** One pass of the third loop: skip a name the map holds, otherwise
      create its tag, or record an error when its colour is not in the
      palette. */
  method CreateTagStep(db: Db, userId: int, data: seq<ImportData>, ph: TagPhase, tagName: string, color: string,
                       nextTagId: int, ghost base: seq<Tag>) returns (r: TagPhase)
    requires db.Valid()
    requires color == LastColor(data, tagName)
    requires db.tags == base + ph.created && db.nextTagId == nextTagId + |ph.created|
    modifies db
    ensures db.Valid()
    ensures r == TagStep(ph, tagName, data, userId, nextTagId)
    ensures db.tags == base + r.created && db.nextTagId == nextTagId + |r.created|
    ensures db.entries == old(db.entries) && db.nextEntryId == old(db.nextEntryId) && db.running == old(db.running)
  {
    r := ph;
    if tagName !in ph.tagMap {
      var parsed := ParseColor(color);
      if parsed.None? {
        r := ph.(errors := ph.errors + [TagCreateFailed(tagName)]);
      } else {
        var newTag := CreateTagForUser(db, userId, tagName, Some(parsed.value));
        assert newTag == Tag(nextTagId + |ph.created|, userId, tagName, parsed.value);
        r := ph.(tagMap := ph.tagMap[tagName := newTag.id], created := ph.created + [newTag]);
        assert base + r.created == (base + ph.created) + [newTag];
      }
    }
  }

  /** The third loop: create each unique tag the map does not hold yet. */
  method CreateMissingTags(db: Db, userId: int, data: seq<ImportData>, seed: map<string, int>,
                           uniqueTags: map<string, string>, uniqueOrder: seq<string>)
    returns (tagMap: map<string, int>, createdTags: seq<Tag>, errors: seq<ImportError>)
    requires db.Valid()
    requires forall name :: name in uniqueOrder ==> name in uniqueTags && uniqueTags[name] == LastColor(data, name)
    modifies db
    ensures db.Valid()
    ensures TagPhase(tagMap, createdTags, errors) == CreateTags(seed, uniqueOrder, data, userId, old(db.nextTagId))
    ensures db.tags == old(db.tags) + createdTags && db.nextTagId == old(db.nextTagId) + |createdTags|
    ensures db.entries == old(db.entries) && db.nextEntryId == old(db.nextEntryId) && db.running == old(db.running)
  {
    var firstId := db.nextTagId;
    ghost var base := db.tags;
    var ph := TagPhase(seed, [], []);
    for j := 0 to |uniqueOrder|
      invariant ph == CreateTags(seed, uniqueOrder[..j], data, userId, old(db.nextTagId))
      invariant db.Valid()
      invariant db.tags == old(db.tags) + ph.created && db.nextTagId == old(db.nextTagId) + |ph.created|
      invariant db.entries == old(db.entries) && db.nextEntryId == old(db.nextEntryId) && db.running == old(db.running)
    {
      assert uniqueOrder[..j + 1][..j] == uniqueOrder[..j];
      assert uniqueOrder[j] in uniqueOrder;
      ph := CreateTagStep(db, userId, data, ph, uniqueOrder[j], uniqueTags[uniqueOrder[j]], firstId, base);
    }
    assert uniqueOrder[..|uniqueOrder|] == uniqueOrder;
    tagMap, createdTags, errors := ph.tagMap, ph.created, ph.errors;
  }

  /** One pass of the fourth loop: a record whose tag does not resolve or
      that overlaps an entry of the user is reported; otherwise it is inserted. */
  method ImportRecordStep(db: Db, userId: int, tagMap: map<string, int>, item: ImportData,
                          createdEntries: nat, errors: seq<ImportError>)
    returns (createdEntries': nat, errors': seq<ImportError>)
    requires db.Valid()
    modifies db
    ensures db.Valid()
    ensures EntryPhase(db.entries, db.nextEntryId, createdEntries', errors')
         == ImportItem(EntryPhase(old(db.entries), old(db.nextEntryId), createdEntries, errors), userId, tagMap, item)
    ensures db.tags == old(db.tags) && db.nextTagId == old(db.nextTagId) && db.running == old(db.running)
  {
    createdEntries', errors' := createdEntries, errors;
    var tagName := if item.tag.Some? && item.tag.value.name != "" then item.tag.value.name else NoProject;
    if tagName !in tagMap || tagMap[tagName] == 0 {
      errors' := errors + [NoTagId(tagName)];
    } else {
      var overlap := FindOverlappingEntry(db.entries, userId, item.startTimeUtc, item.endTimeUtc, None);
      if overlap.Some? {
        errors' := errors + [EntryOverlaps(item.name, overlap.value)];
      } else {
        var entry := Entry(db.nextEntryId, userId, item.name, item.startTimeUtc, item.endTimeUtc, tagMap[tagName]);
        InsertKeepsNoOverlap(db.entries, entry);
        db.entries := db.entries + [entry];
        db.nextEntryId := db.nextEntryId + 1;
        createdEntries' := createdEntries + 1;
      }
    }
  }

  /** The fourth loop: each record checked and inserted against the growing table. */
  method ImportRecords(db: Db, userId: int, tagMap: map<string, int>, data: seq<ImportData>)
    returns (createdEntries: nat, errors: seq<ImportError>)
    requires db.Valid()
    modifies db
    ensures db.Valid()
    ensures EntryPhase(db.entries, db.nextEntryId, createdEntries, errors)
         == ImportItems(EntryPhase(old(db.entries), old(db.nextEntryId), 0, []), userId, tagMap, data)
    ensures db.tags == old(db.tags) && db.nextTagId == old(db.nextTagId) && db.running == old(db.running)
  {
    createdEntries, errors := 0, [];
    for i := 0 to |data|
      invariant EntryPhase(db.entries, db.nextEntryId, createdEntries, errors)
             == ImportItems(EntryPhase(old(db.entries), old(db.nextEntryId), 0, []), userId, tagMap, data[..i])
      invariant db.Valid()
      invariant db.tags == old(db.tags) && db.nextTagId == old(db.nextTagId) && db.running == old(db.running)
    {
      assert data[..i + 1][..i] == data[..i];
      createdEntries, errors := ImportRecordStep(db, userId, tagMap, data[i], createdEntries, errors);
    }
    assert data[..|data|] == data;
  }

  /** processImportData: seed the tag map from the user's tags, collect the
      unique tag names with their last colours, create the missing tags, then
      import the records one by one against the growing entry table. Tag
      errors come first in the report, then record errors in record order. */
  method ProcessImportData(db: Db, userId: int, data: seq<ImportData>) returns (summary: ImportSummary)
    requires db.Valid()
    modifies db
    ensures db.Valid()
    ensures var tp := CreateTags(SeedMap(GetTagsForUser(old(db.tags), userId)), UniqueTagNames(data), data,
                                 userId, old(db.nextTagId));
      var ep := ImportItems(EntryPhase(old(db.entries), old(db.nextEntryId), 0, []), userId, tp.tagMap, data);
      && db.tags == old(db.tags) + tp.created && db.nextTagId == old(db.nextTagId) + |tp.created|
      && db.entries == ep.entries && db.nextEntryId == ep.nextEntryId
      && summary.tagsCreated == |tp.created| && summary.entriesCreated == ep.created
      && summary.errors == (if tp.errors + ep.errors == [] then None else Some(tp.errors + ep.errors))
    ensures db.running == old(db.running)
  {
    var existingTags := GetTagsForUser(db.tags, userId);
    var seed := SeedTagMap(existingTags);
    var uniqueTags, uniqueOrder := CollectUniqueTags(data);
    var tagMap, createdTags, tagErrors := CreateMissingTags(db, userId, data, seed, uniqueTags, uniqueOrder);
    var createdEntries, entryErrors := ImportRecords(db, userId, tagMap, data);
    var errors := tagErrors + entryErrors;
    summary := ImportSummary(|createdTags|, createdEntries, if |errors| > 0 then Some(errors) else None);
  }

  /** The import report: every record is either created or reported once, so
      when every named tag carries a palette colour (no tag fails),
      entriesCreated plus the number of errors is the number of records. */
  lemma ImportCountIdentity(tags: seq<Tag>, entries: seq<Entry>, nextTagId: int, nextEntryId: int,
                            userId: int, data: seq<ImportData>)
    requires forall i :: 0 <= i < |data| && HasTagName(data[i]) ==>
               ParseColor(LastColor(data, data[i].tag.value.name)).Some?
    ensures var tp := CreateTags(SeedMap(GetTagsForUser(tags, userId)), UniqueTagNames(data), data, userId, nextTagId);
      var ep := ImportItems(EntryPhase(entries, nextEntryId, 0, []), userId, tp.tagMap, data);
      && tp.errors == []
      && ep.created + |tp.errors + ep.errors| == |data|
  {
    var seed := SeedMap(GetTagsForUser(tags, userId));
    var names := UniqueTagNames(data);
    UniqueTagNamesDistinct(data);
    CreateTagsErrors(seed, names, data, userId, nextTagId);
    var tp := CreateTags(seed, names, data, userId, nextTagId);
    ImportItemsCounts(EntryPhase(entries, nextEntryId, 0, []), userId, tp.tagMap, data);
  }

  /** The created tags never reuse a name the map was seeded with, nor each
      other's names. */
  lemma CreatedTagsFresh(seed: map<string, int>, names: seq<string>, data: seq<ImportData>,
                         userId: int, nextTagId: int, ph: TagPhase)
    requires Distinct(names) && ph == CreateTags(seed, names, data, userId, nextTagId)
    ensures forall c :: c in ph.created ==> c.name !in seed
    ensures forall i, j :: 0 <= i < j < |ph.created| ==> ph.created[i].name != ph.created[j].name
  {
    CreateTagsCreated(seed, names, data, userId, nextTagId);
    forall c | c in ph.created
      ensures c.name !in seed
    {
      var k :| 0 <= k < |ph.created| && ph.created[k] == c;
    }
  }

  /** An existing tag name of the user never causes a tag to be created, and
      no name is created twice. */
  lemma ImportTagsProperties(tags: seq<Tag>, nextTagId: int, userId: int, data: seq<ImportData>, tp: TagPhase)
    requires tp == CreateTags(SeedMap(GetTagsForUser(tags, userId)), UniqueTagNames(data), data, userId, nextTagId)
    ensures forall t, c :: t in tags && t.userId == userId && c in tp.created ==> c.name != t.name
    ensures forall i, j :: 0 <= i < j < |tp.created| ==> tp.created[i].name != tp.created[j].name
  {
    UniqueTagNamesDistinct(data);
    CreatedTagsFresh(SeedMap(GetTagsForUser(tags, userId)), UniqueTagNames(data), data, userId, nextTagId, tp);
    SeedMapHasOwnNames(tags, userId);
  }

  /** Every tag of the user has its name in the seeded map. */
  lemma SeedMapHasOwnNames(tags: seq<Tag>, userId: int)
    ensures forall t :: t in tags && t.userId == userId ==> t.name in SeedMap(GetTagsForUser(tags, userId))
  {
    var own := GetTagsForUser(tags, userId);
    forall t | t in tags && t.userId == userId
      ensures t.name in SeedMap(own)
    {
      assert t in own;
      var i :| 0 <= i < |own| && own[i] == t;
    }
  }

  /** Every record naming a tag that is new to the user, with a palette
      colour, gets that tag created. */
  lemma ImportCreatesNamedTag(tags: seq<Tag>, nextTagId: int, userId: int, data: seq<ImportData>, k: int)
    requires 0 <= k < |data| && HasTagName(data[k])
    requires Creates(SeedMap(GetTagsForUser(tags, userId)), data, data[k].tag.value.name)
    ensures exists i :: 0 <= i < |CreateTags(SeedMap(GetTagsForUser(tags, userId)), UniqueTagNames(data), data, userId, nextTagId).created|
                        && CreateTags(SeedMap(GetTagsForUser(tags, userId)), UniqueTagNames(data), data, userId, nextTagId).created[i].name
                           == data[k].tag.value.name
  {
    UniqueTagNamesDistinct(data);
    CreateTagsCovers(SeedMap(GetTagsForUser(tags, userId)), UniqueTagNames(data), data, userId, nextTagId, data[k].tag.value.name);
  }

  // ---------------------------------------------------------------------------
  // exportEntriesForUser

  /** The export fails as a whole when an entry's tag relation is missing. */
  datatype ExportError = ExportFailed

  /** One exported record: the entry's name and times, its tag's name and colour. */
  function Project(e: Entry, tags: seq<Tag>): ImportData {
    ImportData(e.name, e.startTimeUtc, e.endTimeUtc,
               match TagById(tags, e.tagId)
               case Some(t) => Some(ImportTag(t.name, ColorName(t.color)))
               case None => None)
  }

  /** The records of entries whose tags all resolve, in the same order. */
  function ProjectAll(rows: seq<Entry>, tags: seq<Tag>): (r: seq<ImportData>)
    requires forall e :: e in rows ==> TagById(tags, e.tagId).Some?
    ensures |r| == |rows|
    ensures forall i :: 0 <= i < |r| ==>
      r[i] == Project(rows[i], tags) && r[i].tag.Some? && r[i].startTimeUtc == rows[i].startTimeUtc
  {
    if rows == [] then []
    else
      assert rows[0] in rows;
      assert forall e :: e in rows[1..] ==> e in rows;
      [Project(rows[0], tags)] + ProjectAll(rows[1..], tags)
  }

  /** Sorting on the negated start is sorting by start, ascending. */
  function NegatedStart(e: Entry): int { -e.startTimeUtc }

  /** The user's entries, oldest first. */
  function ExportOrder(entries: seq<Entry>, userId: int): seq<Entry> {
    SortDesc(EntriesOf(entries, userId), NegatedStart)
  }

  /** The export order holds exactly the user's entries, oldest first. */
  lemma ExportOrderProperties(entries: seq<Entry>, userId: int)
    ensures forall e :: e in ExportOrder(entries, userId) <==> e in entries && e.userId == userId
    ensures |ExportOrder(entries, userId)| == |EntriesOf(entries, userId)|
    ensures forall i, j :: 0 <= i < j < |ExportOrder(entries, userId)| ==>
              ExportOrder(entries, userId)[i].startTimeUtc <= ExportOrder(entries, userId)[j].startTimeUtc
  {
    var own := EntriesOf(entries, userId);
    var rows := ExportOrder(entries, userId);
    forall e ensures e in rows <==> e in own {
      SortDescMembers(own, NegatedStart, e);
    }
    forall i, j | 0 <= i < j < |rows| ensures rows[i].startTimeUtc <= rows[j].startTimeUtc {
      assert NegatedStart(rows[i]) >= NegatedStart(rows[j]);
    }
  }

  /** exportEntriesForUser: the user's entries in ascending start order as
      records, or a failure when one of them has no tag. */
  function ExportEntriesForUser(entries: seq<Entry>, tags: seq<Tag>, userId: int): (r: Result<seq<ImportData>, ExportError>)
    ensures r.Success? <==> forall e :: e in entries && e.userId == userId ==> TagById(tags, e.tagId).Some?
    ensures r.Success? ==> |r.value| == |EntriesOf(entries, userId)|
    ensures r.Success? ==> forall i, j :: 0 <= i < j < |r.value| ==> r.value[i].startTimeUtc <= r.value[j].startTimeUtc
    ensures r.Success? ==> forall i :: 0 <= i < |r.value| ==> r.value[i].tag.Some?
  {
    var rows := ExportOrder(entries, userId);
    ExportOrderProperties(entries, userId);
    if forall e :: e in rows ==> TagById(tags, e.tagId).Some?
    then Success(ProjectAll(rows, tags))
    else Failure(ExportFailed)
  }

  /** A successful export is the user's entries, each exactly once (the
      export order is a permutation of them), turned into records field by
      field; every record's colour is a palette name that an import reads
      back as the tag's colour. */
  lemma ExportProperties(entries: seq<Entry>, tags: seq<Tag>, userId: int)
    ensures var r := ExportEntriesForUser(entries, tags, userId);
      var rows := ExportOrder(entries, userId);
      r.Success? ==>
        && multiset(rows) == multiset(EntriesOf(entries, userId))
        && (forall i :: 0 <= i < |r.value| ==>
              var t := TagById(tags, rows[i].tagId).value;
              && r.value[i] == ImportData(rows[i].name, rows[i].startTimeUtc, rows[i].endTimeUtc,
                                          Some(ImportTag(t.name, ColorName(t.color))))
              && t.id == rows[i].tagId && t in tags
              && ParseColor(r.value[i].tag.value.color) == Some(t.color))
  {
    var rows := ExportOrder(entries, userId);
    var r := ExportEntriesForUser(entries, tags, userId);
    if r.Success? {
      forall i | 0 <= i < |r.value|
        ensures ParseColor(r.value[i].tag.value.color) == Some(TagById(tags, rows[i].tagId).value.color)
      {
        assert rows[i] in rows;
        ColorRoundTrip(TagById(tags, rows[i].tagId).value.color);
      }
    }
  }
}
