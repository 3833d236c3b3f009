/** The section procedures: list a case's sections, fetch one, create (appended last),
    partial update, delete (refused while documents link to it), and the reorder transaction. */
module SectionRouter {
  import opened Common
  import opened Schema
  import opened Store
  import Listing

  /** A section with the documents filed under it, latest upload first. */
  datatype SectionView = SectionView(section: Section, documents: seq<Document>)

  /** A section, the id of the user owning its case, and its documents, latest upload first. */
  datatype SectionDetail = SectionDetail(section: Section, ownerId: UserId, documents: seq<Document>)

  function SectionsOf(views: seq<SectionView>): (r: seq<Section>)
    ensures |r| == |views| && forall i :: 0 <= i < |r| ==> r[i] == views[i].section
  {
    seq(|views|, i requires 0 <= i < |views| => views[i].section)
  }

  // ------------------------------------------------------------------ queries

  /** `getAllByCaseId`: Unauthorized whether the case is missing or foreign; otherwise the
      case's sections by ascending order, each with its documents, latest upload first. */
  method GetAllByCaseId(db: Db, user: UserId, caseId: Id) returns (r: Result<seq<SectionView>>)
    requires db.Valid()
    ensures r.Failure? <==> !db.OwnsCase(user, caseId)
    ensures r.Failure? ==> r.error == Unauthorized
    ensures r.Success? ==> db.SectionListing(SectionsOf(r.value), caseId)
    ensures r.Success? ==> forall i :: 0 <= i < |r.value| ==>
      db.DocumentListing(r.value[i].documents, BySection(r.value[i].section.id))
  {
    var guard := db.CaseGuard(user, caseId, Unauthorized);
    if guard.Fail? {
      return Failure(guard.error);
    }
    var sections := db.FindSections(caseId);
    var views: seq<SectionView> := [];
    var i := 0;
    while i < |sections|
      invariant 0 <= i <= |sections|
      invariant |views| == i
      invariant forall j :: 0 <= j < i ==> views[j].section == sections[j]
      invariant forall j :: 0 <= j < i ==> db.DocumentListing(views[j].documents, BySection(sections[j].id))
    {
      var documents := db.FindDocuments(BySection(sections[i].id));
      views := views + [SectionView(sections[i], documents)];
      i := i + 1;
    }
    assert SectionsOf(views) == sections;
    r := Success(views);
  }

  /** `getById`: NotFound for a missing section, Unauthorized when its case is not the
      user's; otherwise the section, its owner and its documents, latest upload first. */
  method GetById(db: Db, user: UserId, id: Id) returns (r: Result<SectionDetail>)
    requires db.Valid()
    ensures r.Failure? <==> db.SectionGuard(user, id).Fail?
    ensures r.Failure? ==> r.error == db.SectionGuard(user, id).error
    ensures r.Success? ==> r.value.section == db.sections[id] && r.value.ownerId == user
    ensures r.Success? ==> db.DocumentListing(r.value.documents, BySection(id))
  {
    var guard := db.SectionGuard(user, id);
    if guard.Fail? {
      return Failure(guard.error);
    }
    var documents := db.FindDocuments(BySection(id));
    r := Success(SectionDetail(db.sections[id], db.cases[db.sections[id].caseId].userId, documents));
  }

  // ------------------------------------------------------------------ create

  /** `create`: a name outside 1..100 characters or a type outside the four names is refused;
      then Unauthorized whether the case is missing or foreign; otherwise one new section in
      that case, ordered after every section the case already has. */
  method Create(db: Db, user: UserId, caseId: Id, name: string, typeName: string, content: Option<string>)
    returns (r: Result<Section>)
    requires db.Valid()
    modifies db
    ensures db.Valid()
    ensures db.cases == old(db.cases) && db.documents == old(db.documents)
    ensures r == Failure(BadRequest) <==> !ValidName(name) || ParseSectionType(typeName).None?
    ensures r == Failure(Unauthorized) <==>
      ValidName(name) && ParseSectionType(typeName).Some? && !old(db.OwnsCase(user, caseId))
    ensures r.Success? <==> ValidName(name) && ParseSectionType(typeName).Some? && old(db.OwnsCase(user, caseId))
    ensures r.Failure? ==> db.sections == old(db.sections)
    ensures r.Success? ==>
      var s := r.value;
      && s.id !in old(db.sections) && db.sections == old(db.sections)[s.id := s]
      && s.caseId == caseId && s.name == name && TypeName(s.kind) == typeName && s.content == content
      && old(db.IsAppendOrder(caseId, s.order))
  {
    var kind := ParseSectionType(typeName);
    if !ValidName(name) || kind.None? {
      return Failure(BadRequest);
    }
    var guard := db.CaseGuard(user, caseId, Unauthorized);
    if guard.Fail? {
      return Failure(guard.error);
    }
    var highest := db.HighestOrder(caseId);
    var order := (if highest.Some? then highest.value else -1) + 1;
    assert db.IsAppendOrder(caseId, order);
    assert Issued(caseId, db.nextId);
    var id := db.FreshId();
    var s := Section(id, caseId, name, kind.value, content, order);
    db.PutSection(s);
    r := Success(s);
  }

  /** A section whose order is above every sibling's (as `create` gives it) comes last in
      every listing of its case's sections. */
  lemma {:induction false} NewSectionListedLast(db: Db, s: Section, r: seq<Section>)
    requires s.id in db.sections && db.sections[s.id] == s
    requires forall k :: k in db.sections && db.sections[k].caseId == s.caseId && k != s.id ==> db.sections[k].order < s.order
    requires db.SectionListing(r, s.caseId)
    ensures |r| > 0 && r[|r| - 1] == s
  {
    assert s in r;
    var j :| 0 <= j < |r| && r[j] == s;
    var last := r[|r| - 1];
    assert s.order <= last.order;
    assert db.sections[last.id] == last && last.caseId == s.caseId;
    assert last.id == s.id;
  }

  // ------------------------------------------------------------------ update

  /** The fields `update` writes: the name when a non-empty one is given, the content whenever
      one is given (even ""), the order whenever one is given; id, case link and type never. */
  function PatchSection(s: Section, name: Option<string>, content: Option<string>, order: Option<int>): (r: Section)
    ensures r.id == s.id && r.caseId == s.caseId && r.kind == s.kind
    ensures Truthy(name) ==> r.name == name.value
    ensures !Truthy(name) ==> r.name == s.name
    ensures content.Some? ==> r.content == content
    ensures content.None? ==> r.content == s.content
    ensures order.Some? ==> r.order == order.value
    ensures order.None? ==> r.order == s.order
  {
    var s1 := if Truthy(name) then s.(name := name.value) else s;
    var s2 := if content.Some? then s1.(content := content) else s1;
    if order.Some? then s2.(order := order.value) else s2
  }

  /** `update`: a given name outside 1..100 characters is refused; NotFound for a missing
      section; Unauthorized when its case is not the user's; otherwise only the given fields of
      that one section change. */
  method Update(db: Db, user: UserId, id: Id, name: Option<string>, content: Option<string>, order: Option<int>)
    returns (r: Result<Section>)
    requires db.Valid()
    modifies db
    ensures db.Valid()
    ensures db.cases == old(db.cases) && db.documents == old(db.documents)
    ensures r == Failure(BadRequest) <==> name.Some? && !ValidName(name.value)
    ensures r == Failure(NotFound) <==> (name.None? || ValidName(name.value)) && id !in old(db.sections)
    ensures r == Failure(Unauthorized) <==>
      (name.None? || ValidName(name.value)) && old(db.SectionGuard(user, id)) == Fail(Unauthorized)
    ensures r.Success? <==> (name.None? || ValidName(name.value)) && old(db.SectionGuard(user, id)) == Pass
    ensures r.Failure? ==> db.sections == old(db.sections)
    ensures r.Success? ==>
      && id in old(db.sections)
      && r.value == PatchSection(old(db.sections)[id], name, content, order)
      && db.sections == old(db.sections)[id := r.value]
  {
    if name.Some? && !ValidName(name.value) {
      return Failure(BadRequest);
    }
    var guard := db.SectionGuard(user, id);
    if guard.Fail? {
      return Failure(guard.error);
    }
    var s := PatchSection(db.sections[id], name, content, order);
    db.PutSection(s);
    r := Success(s);
  }

  // ------------------------------------------------------------------ delete

  /** `delete`: NotFound for a missing section; Unauthorized when its case is not the user's;
      BadRequest exactly when a document links to it; otherwise that section alone is removed. */
  method Delete(db: Db, user: UserId, id: Id) returns (r: Result<Section>)
    requires db.Valid()
    modifies db
    ensures db.Valid()
    ensures db.cases == old(db.cases) && db.documents == old(db.documents)
    ensures r == Failure(NotFound) <==> id !in old(db.sections)
    ensures r == Failure(Unauthorized) <==> old(db.SectionGuard(user, id)) == Fail(Unauthorized)
    ensures r == Failure(BadRequest) <==> old(db.SectionGuard(user, id)) == Pass && old(db.HasDocuments(id))
    ensures r.Success? <==> old(db.SectionGuard(user, id)) == Pass && !old(db.HasDocuments(id))
    ensures r.Failure? ==> db.sections == old(db.sections)
    ensures r.Success? ==> r.value == old(db.sections)[id] && db.sections == old(db.sections) - {id}
  {
    var guard := db.SectionGuard(user, id);
    if guard.Fail? {
      return Failure(guard.error);
    }
    var documents := db.FindDocuments(BySection(id));
    if |documents| > 0 {
      assert Keeps(BySection(id), db.documents[documents[0].id]);
      return Failure(BadRequest);
    }
    assert !db.HasDocuments(id) by {
      forall k | k in db.documents && db.documents[k].sectionId == Some(id)
        ensures false
      {
        assert Keeps(BySection(id), db.documents[k]);
      }
    }
    r := Success(db.sections[id]);
    db.RemoveSection(id);
  }

  // ------------------------------------------------------------------ reorder

  /** The index of the last occurrence of `k` in `ids`, or -1. */
  function LastIndex(ids: seq<Id>, k: Id): (r: int)
    ensures -1 <= r < |ids|
    ensures r == -1 <==> k !in ids
    ensures r >= 0 ==> ids[r] == k && forall j :: r < j < |ids| ==> ids[j] != k
  {
    if ids == [] then -1
    else if ids[|ids| - 1] == k then |ids| - 1
    else LastIndex(ids[..|ids| - 1], k)
  }

  /** The section table after the transaction's updates, applied in list order: the section
      listed at index j gets order j. An id listed twice ends with its later index. */
  function ApplyOrders(secs: map<Id, Section>, ids: seq<Id>): (r: map<Id, Section>)
    ensures r.Keys == secs.Keys
  {
    if ids == [] then secs
    else
      var before := ApplyOrders(secs, ids[..|ids| - 1]);
      var k := ids[|ids| - 1];
      if k in before then before[k := before[k].(order := |ids| - 1)] else before
  }

  /** Where `reorder` leaves one section: at the last index where the list names it, or
      where it was when the list does not name it. */
  function Placed(s: Section, k: Id, ids: seq<Id>): Section {
    if k in ids then s.(order := LastIndex(ids, k)) else s
  }

  /** The closed form of the transaction: each section is placed independently of the others. */
  lemma {:induction false} ApplyOrdersPlaces(secs: map<Id, Section>, ids: seq<Id>)
    ensures forall k :: k in secs ==> ApplyOrders(secs, ids)[k] == Placed(secs[k], k, ids)
  {
    if ids != [] {
      var front := ids[..|ids| - 1];
      ApplyOrdersPlaces(secs, front);
      forall k | k in secs
        ensures ApplyOrders(secs, ids)[k] == Placed(secs[k], k, ids)
      {
        if k != ids[|ids| - 1] {
          assert k in ids <==> k in front by {
            if k in ids {
              var j :| 0 <= j < |ids| && ids[j] == k;
              assert front[j] == k;
            }
          }
        }
      }
    }
  }

  /** After a reorder with distinct ids, the id at index i has order i. */
  lemma ReorderPutsEachAtItsIndex(secs: map<Id, Section>, ids: seq<Id>)
    requires Listing.Distinct(ids)
    ensures forall i :: 0 <= i < |ids| && ids[i] in secs ==> ApplyOrders(secs, ids)[ids[i]].order == i
  {
    ApplyOrdersPlaces(secs, ids);
    forall i | 0 <= i < |ids| && ids[i] in secs
      ensures ApplyOrders(secs, ids)[ids[i]].order == i
    {
      var j := LastIndex(ids, ids[i]);
      assert j == i;
    }
  }

  /** A reorder changes only orders, and nothing at all of a section it does not list. */
  lemma ReorderTouchesOnlyListedOrders(secs: map<Id, Section>, ids: seq<Id>)
    ensures forall k :: k in secs ==> ApplyOrders(secs, ids)[k] == secs[k].(order := ApplyOrders(secs, ids)[k].order)
    ensures forall k :: k in secs && k !in ids ==> ApplyOrders(secs, ids)[k] == secs[k]
  {
    ApplyOrdersPlaces(secs, ids);
  }

  /** Applying the same list twice leaves the same table as applying it once. */
  lemma ReorderIdempotent(secs: map<Id, Section>, ids: seq<Id>)
    ensures ApplyOrders(ApplyOrders(secs, ids), ids) == ApplyOrders(secs, ids)
  {
    var once := ApplyOrders(secs, ids);
    ApplyOrdersPlaces(secs, ids);
    ApplyOrdersPlaces(once, ids);
    var twice := ApplyOrders(once, ids);
    forall k | k in once
      ensures twice[k] == once[k]
    {
    }
  }

  /** `reorder`: Unauthorized whether the case is missing or foreign. The updates run as one
      transaction: when a listed id names no section, none is applied and the request fails;
      otherwise each listed section takes its index as its order. Listed ids are not checked
      to belong to `caseId`. */
  method Reorder(db: Db, user: UserId, caseId: Id, orderedSectionIds: seq<Id>) returns (r: Result<bool>)
    requires db.Valid()
    modifies db
    ensures db.Valid()
    ensures db.cases == old(db.cases) && db.documents == old(db.documents)
    ensures r == Failure(Unauthorized) <==> !old(db.OwnsCase(user, caseId))
    ensures r == Failure(InternalServerError) <==>
      old(db.OwnsCase(user, caseId)) && exists i :: 0 <= i < |orderedSectionIds| && orderedSectionIds[i] !in old(db.sections)
    ensures r.Success? <==>
      old(db.OwnsCase(user, caseId)) && forall i :: 0 <= i < |orderedSectionIds| ==> orderedSectionIds[i] in old(db.sections)
    ensures r.Failure? ==> db.sections == old(db.sections)
    ensures r.Success? ==> r.value && db.sections == ApplyOrders(old(db.sections), orderedSectionIds)
  {
    var guard := db.CaseGuard(user, caseId, Unauthorized);
    if guard.Fail? {
      return Failure(guard.error);
    }
    if exists i :: 0 <= i < |orderedSectionIds| && orderedSectionIds[i] !in db.sections {
      return Failure(InternalServerError);
    }
    ghost var before := db.sections;
    var i := 0;
    while i < |orderedSectionIds|
      invariant 0 <= i <= |orderedSectionIds|
      invariant db.Valid()
      invariant db.cases == old(db.cases) && db.documents == old(db.documents)
      invariant db.sections == ApplyOrders(before, orderedSectionIds[..i])
    {
      var k := orderedSectionIds[i];
      assert orderedSectionIds[..i + 1][..i] == orderedSectionIds[..i];
      db.PutSection(db.sections[k].(order := i));
      i := i + 1;
    }
    assert orderedSectionIds[..i] == orderedSectionIds;
    r := Success(true);
  }
}
