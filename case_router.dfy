/** The case procedures: list, fetch, create (with its three default sections), update, delete. */
module CaseRouter {
  import opened Common
  import opened Schema
  import opened Store

  /** A case with its sections (ascending order) and documents (latest upload first). */
  datatype CaseDetail = CaseDetail(case_: Case, sections: seq<Section>, documents: seq<Document>)

  /** A newly created case with the sections created alongside it, listed in creation order
      (the store itself gives them in no particular order). */
  datatype NewCase = NewCase(case_: Case, sections: seq<Section>)

  /** `getAll`: the acting user's cases, most recently updated first. */
  method GetAll(db: Db, user: UserId) returns (r: seq<Case>)
    requires db.Valid()
    ensures db.CaseListing(r, user)
  {
    r := db.FindCases(user);
  }

  /** `getById`: the case with its sections and documents, for any caller (no owner check),
      or None when no case has that id. */
  method GetById(db: Db, id: Id) returns (r: Option<CaseDetail>)
    requires db.Valid()
    ensures r.None? <==> id !in db.cases
    ensures r.Some? ==> r.value.case_ == db.cases[id]
    ensures r.Some? ==> db.SectionListing(r.value.sections, id)
    ensures r.Some? ==> db.DocumentListing(r.value.documents, ByCase(id))
  {
    if id !in db.cases {
      return None;
    }
    var sections := db.FindSections(id);
    var documents := db.FindDocuments(ByCase(id));
    r := Some(CaseDetail(db.cases[id], sections, documents));
  }

  /** `create`: a title outside 1..100 characters is refused before any write; otherwise one
      new case owned by `user` and exactly three new sections in it, the defaults at orders 0, 1, 2. */
  method Create(db: Db, user: UserId, title: string, description: Option<string>, now: int)
    returns (r: Result<NewCase>)
    requires db.Valid()
    modifies db
    ensures db.Valid()
    ensures db.documents == old(db.documents)
    ensures r.Failure? <==> !ValidName(title)
    ensures r.Failure? ==> r.error == BadRequest
    ensures r.Failure? ==> db.cases == old(db.cases) && db.sections == old(db.sections)
    ensures r.Success? ==>
      var c := r.value.case_;
      && c.id !in old(db.cases) && db.cases == old(db.cases)[c.id := c]
      && c.userId == user && c.title == title && c.description == description
      && c.createdAt == now && c.updatedAt == now
    ensures r.Success? ==>
      var c, ss := r.value.case_, r.value.sections;
      && |ss| == 3
      && ss[0] == DefaultSection(ss[0].id, c.id, 0) && ss[0].id !in old(db.sections)
      && ss[1] == DefaultSection(ss[1].id, c.id, 1) && ss[1].id !in old(db.sections)
      && ss[2] == DefaultSection(ss[2].id, c.id, 2) && ss[2].id !in old(db.sections)
      && ss[0].id != ss[1].id && ss[0].id != ss[2].id && ss[1].id != ss[2].id
      && db.sections == old(db.sections)[ss[0].id := ss[0]][ss[1].id := ss[1]][ss[2].id := ss[2]]
      && (forall k :: k in db.sections && db.sections[k].caseId == c.id <==> k == ss[0].id || k == ss[1].id || k == ss[2].id)
    ensures r.Success? ==> NoDocumentOf(db.documents, r.value.case_.id)
  {
    if !ValidName(title) {
      return Failure(BadRequest);
    }
    var caseId := db.FreshId();
    var c := Case(caseId, user, title, description, now, now);
    db.PutCase(c);
    var s0, s1, s2 := AddDefaultSections(db, caseId);
    r := Success(NewCase(c, [s0, s1, s2]));
  }

  /** Inserts the three default sections of a case no section links to yet; afterwards they
      are exactly the sections of that case. */
  method AddDefaultSections(db: Db, caseId: Id) returns (s0: Section, s1: Section, s2: Section)
    requires db.Valid() && Issued(caseId, db.nextId) && NoSectionOf(db.sections, caseId)
    modifies db
    ensures db.Valid() && db.nextId > old(db.nextId)
    ensures db.cases == old(db.cases) && db.documents == old(db.documents)
    ensures s0 == DefaultSection(s0.id, caseId, 0) && s0.id !in old(db.sections)
    ensures s1 == DefaultSection(s1.id, caseId, 1) && s1.id !in old(db.sections)
    ensures s2 == DefaultSection(s2.id, caseId, 2) && s2.id !in old(db.sections)
    ensures s0.id != s1.id && s0.id != s2.id && s1.id != s2.id
    ensures db.sections == old(db.sections)[s0.id := s0][s1.id := s1][s2.id := s2]
    ensures forall k :: k in db.sections && db.sections[k].caseId == caseId <==> k == s0.id || k == s1.id || k == s2.id
  {
    ghost var before := db.sections;
    var id0 := db.FreshId();
    s0 := DefaultSection(id0, caseId, 0);
    db.PutSection(s0);
    var id1 := db.FreshId();
    s1 := DefaultSection(id1, caseId, 1);
    db.PutSection(s1);
    var id2 := db.FreshId();
    s2 := DefaultSection(id2, caseId, 2);
    db.PutSection(s2);
    OnlyDefaultsLinked(before, db.sections, caseId, s0, s1, s2);
  }

  /** A case id no section linked to before: after the three defaults are inserted, they are
      exactly the sections of that case. */
  lemma OnlyDefaultsLinked(before: map<Id, Section>, after: map<Id, Section>, caseId: Id, s0: Section, s1: Section, s2: Section)
    requires s0.caseId == caseId && s1.caseId == caseId && s2.caseId == caseId
    requires NoSectionOf(before, caseId)
    requires after == before[s0.id := s0][s1.id := s1][s2.id := s2]
    ensures forall k :: k in after && after[k].caseId == caseId <==> k == s0.id || k == s1.id || k == s2.id
  {
  }

  /** `update`: the same untagged error whether the case is missing or foreign, with nothing
      changed; otherwise that case alone gets the new title, the description when one is given,
      and the write time as its update time. */
  method Update(db: Db, user: UserId, id: Id, title: string, description: Option<string>, now: int)
    returns (r: Result<Case>)
    requires db.Valid()
    modifies db
    ensures db.Valid()
    ensures db.sections == old(db.sections) && db.documents == old(db.documents) && db.nextId == old(db.nextId)
    ensures r == Failure(BadRequest) <==> !ValidName(title)
    ensures r == Failure(NotAuthorized) <==> ValidName(title) && !old(db.OwnsCase(user, id))
    ensures r.Success? <==> ValidName(title) && old(db.OwnsCase(user, id))
    ensures r.Failure? ==> db.cases == old(db.cases)
    ensures r.Success? ==>
      var was := old(db.cases)[id];
      && id in old(db.cases) && db.cases == old(db.cases)[id := r.value]
      && r.value.id == id && r.value.userId == was.userId && r.value.userId == user
      && r.value.title == title && r.value.createdAt == was.createdAt && r.value.updatedAt == now
      && r.value.description == (if description.Some? then description else was.description)
  {
    if !ValidName(title) {
      return Failure(BadRequest);
    }
    var guard := db.CaseGuard(user, id, NotAuthorized);
    if guard.Fail? {
      return Failure(guard.error);
    }
    var was := db.cases[id];
    var c := was.(title := title, updatedAt := now);
    if description.Some? {
      c := c.(description := description);
    }
    db.PutCase(c);
    r := Success(c);
  }

  /** `delete`: the same untagged error whether the case is missing or foreign, with nothing
      changed; otherwise exactly that case row is removed. */
  method Delete(db: Db, user: UserId, id: Id) returns (r: Result<Case>)
    requires db.Valid()
    modifies db
    ensures db.Valid()
    ensures db.sections == old(db.sections) && db.documents == old(db.documents) && db.nextId == old(db.nextId)
    ensures r.Failure? <==> !old(db.OwnsCase(user, id))
    ensures r.Failure? ==> r.error == NotAuthorized && db.cases == old(db.cases)
    ensures r.Success? ==> r.value == old(db.cases)[id] && db.cases == old(db.cases) - {id}
  {
    var guard := db.CaseGuard(user, id, NotAuthorized);
    if guard.Fail? {
      return Failure(guard.error);
    }
    r := Success(db.cases[id]);
    db.cases := db.cases - {id};
  }
}
