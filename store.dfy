/** The persistent store the procedures work on: the Case, Section and Document tables keyed by
    id, the three ownership guards most procedures run, and the queries the procedures issue. */
module Store {
  import opened Common
  import opened Schema
  import Listing

  /** Which documents a document query selects. */
  datatype DocumentFilter = ByCase(caseId: Id) | BySection(sectionId: Id)

  predicate Keeps(f: DocumentFilter, d: Document) {
    match f
    case ByCase(c) => d.caseId == c
    case BySection(s) => d.sectionId == Some(s)
  }

  /** No section in `secs` links to `caseId`. */
  predicate NoSectionOf(secs: map<Id, Section>, caseId: Id) {
    forall k :: k in secs ==> secs[k].caseId != caseId
  }

  /** The id handed out when `n` ids already have been: any injective choice would do. */
  function IdNumber(n: nat): (id: Id)
    ensures |id| == n + 1
  {
    seq(n + 1, _ => 'c')
  }

  /** `id` is shorter than any id `FreshId` can still hand out once `n` ids have been. */
  predicate Issued(id: Id, n: nat) {
    0 < |id| <= n
  }

  /** Each case is stored under its own id, an issued one. */
  ghost predicate CaseTable(cs: map<Id, Case>, n: nat) {
    forall k :: k in cs ==> cs[k].id == k && Issued(k, n)
  }

  /** Each section is stored under its own id, an issued one, and links to an issued case id. */
  ghost predicate SectionTable(ss: map<Id, Section>, n: nat) {
    forall k :: k in ss ==> ss[k].id == k && Issued(k, n) && |ss[k].caseId| <= n
  }

  /** Each document is stored under its own id, an issued one, links to an issued case id,
      and a section it links to exists. */
  ghost predicate DocumentTable(ds: map<Id, Document>, ss: map<Id, Section>, n: nat) {
    forall k :: k in ds ==>
      ds[k].id == k && Issued(k, n) && |ds[k].caseId| <= n && (ds[k].sectionId.Some? ==> ds[k].sectionId.value in ss)
  }

  /** No document in `docs` links to `caseId`. */
  predicate NoDocumentOf(docs: map<Id, Document>, caseId: Id) {
    forall k :: k in docs ==> docs[k].caseId != caseId
  }

  class Db {
    var cases: map<Id, Case>
    var sections: map<Id, Section>
    var documents: map<Id, Document>
    /** Every id handed out so far is a non-empty string of at most this many characters. */
    var nextId: nat

    /** Each row is stored under its own id; every id in use (and every case link of a section)
        is shorter than any id `FreshId` can still hand out; a document's section link points
        at an existing section. */
    ghost predicate Valid()
      reads this
    {
      CaseTable(cases, nextId) && SectionTable(sections, nextId) && DocumentTable(documents, sections, nextId)
    }

    constructor ()
      ensures Valid()
      ensures cases == map[] && sections == map[] && documents == map[]
    {
      cases, sections, documents := map[], map[], map[];
      nextId := 0;
    }

    /** A new row id, unused in every table and never a case link of a section or document. */
    method FreshId() returns (id: Id)
      requires Valid()
      modifies this`nextId
      ensures Valid() && nextId == old(nextId) + 1 && Issued(id, nextId)
      ensures id !in cases && id !in sections && id !in documents
      ensures NoSectionOf(sections, id) && NoDocumentOf(documents, id)
    {
      id := IdNumber(nextId);
      nextId := nextId + 1;
    }

    /** Writes a case row (insert or replace) under its own, issued id. */
    method PutCase(c: Case)
      requires Valid() && Issued(c.id, nextId)
      modifies this`cases
      ensures Valid() && cases == old(cases)[c.id := c]
    {
      cases := cases[c.id := c];
    }

    /** Writes a section row (insert or replace) under its own, issued id. */
    method PutSection(s: Section)
      requires Valid() && Issued(s.id, nextId) && |s.caseId| <= nextId
      modifies this`sections
      ensures Valid() && sections == old(sections)[s.id := s]
    {
      sections := sections[s.id := s];
    }

    /** Writes a document row (insert or replace) under its own, issued id. */
    method PutDocument(d: Document)
      requires Valid() && Issued(d.id, nextId) && |d.caseId| <= nextId
      requires d.sectionId.Some? ==> d.sectionId.value in sections
      modifies this`documents
      ensures Valid() && documents == old(documents)[d.id := d]
    {
      documents := documents[d.id := d];
    }

    /** Deletes a section row that no document links to. */
    method RemoveSection(id: Id)
      requires Valid() && !HasDocuments(id)
      modifies this`sections
      ensures Valid() && sections == old(sections) - {id}
    {
      sections := sections - {id};
    }

    /** Deletes a document row. */
    method RemoveDocument(id: Id)
      requires Valid()
      modifies this`documents
      ensures Valid() && documents == old(documents) - {id}
    {
      documents := documents - {id};
    }

    // ---------------------------------------------------------------- ownership guard

    /** The case exists and belongs to `user`. */
    predicate OwnsCase(user: UserId, caseId: Id)
      reads this
    {
      caseId in cases && cases[caseId].userId == user
    }

    /** The guard `!existing || existing.userId !== user`: one error, `err`, whether the case
        is missing or belongs to someone else. */
    function CaseGuard(user: UserId, caseId: Id, err: Error): (r: Outcome)
      reads this
      ensures r == Pass <==> OwnsCase(user, caseId)
      ensures r.Fail? ==> r.error == err
    {
      if caseId !in cases || cases[caseId].userId != user then Fail(err) else Pass
    }

    /** Section lookup then owner check: NotFound for a missing section, Unauthorized when
        the section's case is not the user's. */
    function SectionGuard(user: UserId, id: Id): (r: Outcome)
      reads this
      ensures r == Fail(NotFound) <==> id !in sections
      ensures r == Fail(Unauthorized) <==> id in sections && !OwnsCase(user, sections[id].caseId)
      ensures r == Pass <==> id in sections && OwnsCase(user, sections[id].caseId)
    {
      if id !in sections then Fail(NotFound)
      else if !OwnsCase(user, sections[id].caseId) then Fail(Unauthorized)
      else Pass
    }

    /** Document lookup then owner check: NotFound for a missing document, Unauthorized when
        the document's case is not the user's. */
    function DocumentGuard(user: UserId, id: Id): (r: Outcome)
      reads this
      ensures r == Fail(NotFound) <==> id !in documents
      ensures r == Fail(Unauthorized) <==> id in documents && !OwnsCase(user, documents[id].caseId)
      ensures r == Pass <==> id in documents && OwnsCase(user, documents[id].caseId)
    {
      if id !in documents then Fail(NotFound)
      else if !OwnsCase(user, documents[id].caseId) then Fail(Unauthorized)
      else Pass
    }

    // ---------------------------------------------------------------- derived facts

    predicate HasSections(caseId: Id)
      reads this
    {
      exists k :: k in sections && sections[k].caseId == caseId
    }

    predicate HasDocuments(sectionId: Id)
      reads this
    {
      exists k :: k in documents && documents[k].sectionId == Some(sectionId)
    }

    /** `o` is the order that puts a new section of `caseId` last: one more than the
        highest sibling order, or 0 for a case without sections. */
    ghost predicate IsAppendOrder(caseId: Id, o: int)
      reads this
    {
      && (forall k :: k in sections && sections[k].caseId == caseId ==> sections[k].order < o)
      && (HasSections(caseId) ==>
            exists k :: k in sections && sections[k].caseId == caseId && sections[k].order == o - 1)
      && (!HasSections(caseId) ==> o == 0)
    }

    // ---------------------------------------------------------------- listings

    /** `r` lists every case of `user` once, most recently updated first. */
    ghost predicate CaseListing(r: seq<Case>, user: UserId)
      reads this
    {
      && (forall i :: 0 <= i < |r| ==> r[i].id in cases && cases[r[i].id] == r[i] && r[i].userId == user)
      && (forall k :: k in cases && cases[k].userId == user ==> cases[k] in r)
      && (forall i, j :: 0 <= i < j < |r| ==> r[i].id != r[j].id && r[i].updatedAt >= r[j].updatedAt)
    }

    /** `r` lists every section of `caseId` once, by ascending order. */
    ghost predicate SectionListing(r: seq<Section>, caseId: Id)
      reads this
    {
      && (forall i :: 0 <= i < |r| ==> r[i].id in sections && sections[r[i].id] == r[i] && r[i].caseId == caseId)
      && (forall k :: k in sections && sections[k].caseId == caseId ==> sections[k] in r)
      && (forall i, j :: 0 <= i < j < |r| ==> r[i].id != r[j].id && r[i].order <= r[j].order)
    }

    /** `r` lists every document `f` selects once, most recently uploaded first. */
    ghost predicate DocumentListing(r: seq<Document>, f: DocumentFilter)
      reads this
    {
      && (forall i :: 0 <= i < |r| ==> r[i].id in documents && documents[r[i].id] == r[i] && Keeps(f, r[i]))
      && (forall k :: k in documents && Keeps(f, documents[k]) ==> documents[k] in r)
      && (forall i, j :: 0 <= i < j < |r| ==> r[i].id != r[j].id && r[i].uploadedAt >= r[j].uploadedAt)
    }

    /** `findMany({ where: { userId }, orderBy: { updatedAt: "desc" } })` on cases. */
    method FindCases(user: UserId) returns (r: seq<Case>)
      requires Valid()
      ensures CaseListing(r, user)
    {
      var sel := map k | k in cases && cases[k].userId == user :: cases[k];
      var ids := Listing.SortKeys(sel, (c: Case) => -c.updatedAt);
      r := seq(|ids|, i requires 0 <= i < |ids| => sel[ids[i]]);
      assert forall i :: 0 <= i < |r| ==> r[i].id in cases && cases[r[i].id] == r[i] && r[i].userId == user;
      forall k | k in cases && cases[k].userId == user
        ensures cases[k] in r
      {
        assert k in sel && k in ids;
        var i :| 0 <= i < |ids| && ids[i] == k;
        assert r[i] == cases[k];
      }
    }

    /** `findMany({ where: { caseId }, orderBy: { order: "asc" } })` on sections. */
    method FindSections(caseId: Id) returns (r: seq<Section>)
      requires Valid()
      ensures SectionListing(r, caseId)
    {
      var sel := map k | k in sections && sections[k].caseId == caseId :: sections[k];
      var ids := Listing.SortKeys(sel, (s: Section) => s.order);
      r := seq(|ids|, i requires 0 <= i < |ids| => sel[ids[i]]);
      assert forall i :: 0 <= i < |r| ==> r[i].id in sections && sections[r[i].id] == r[i] && r[i].caseId == caseId;
      forall k | k in sections && sections[k].caseId == caseId
        ensures sections[k] in r
      {
        assert k in sel && k in ids;
        var i :| 0 <= i < |ids| && ids[i] == k;
        assert r[i] == sections[k];
      }
    }

    /** `findMany({ where, orderBy: { uploadedAt: "desc" } })` on documents. */
    method FindDocuments(f: DocumentFilter) returns (r: seq<Document>)
      requires Valid()
      ensures DocumentListing(r, f)
    {
      var sel := map k | k in documents && Keeps(f, documents[k]) :: documents[k];
      var ids := Listing.SortKeys(sel, (d: Document) => -d.uploadedAt);
      r := seq(|ids|, i requires 0 <= i < |ids| => sel[ids[i]]);
      assert forall i :: 0 <= i < |r| ==> r[i].id in documents && documents[r[i].id] == r[i] && Keeps(f, r[i]);
      forall k | k in documents && Keeps(f, documents[k])
        ensures documents[k] in r
      {
        assert k in sel && k in ids;
        var i :| 0 <= i < |ids| && ids[i] == k;
        assert r[i] == documents[k];
      }
    }

    /** `findFirst({ where: { caseId }, orderBy: { order: "desc" } })`: the highest order among
        the case's sections, or None when it has none. */
    method HighestOrder(caseId: Id) returns (h: Option<int>)
      ensures h.None? <==> !HasSections(caseId)
      ensures h.Some? ==> forall k :: k in sections && sections[k].caseId == caseId ==> sections[k].order <= h.value
      ensures h.Some? ==> exists k :: k in sections && sections[k].caseId == caseId && sections[k].order == h.value
    {
      h := None;
      var rest := sections.Keys;
      while rest != {}
        invariant rest <= sections.Keys
        invariant h.None? ==> forall k :: k in sections && k !in rest ==> sections[k].caseId != caseId
        invariant h.Some? ==> forall k :: k in sections && k !in rest && sections[k].caseId == caseId ==> sections[k].order <= h.value
        invariant h.Some? ==> exists k :: k in sections && sections[k].caseId == caseId && sections[k].order == h.value
        decreases rest
      {
        var k :| k in rest;
        var s := sections[k];
        if s.caseId == caseId && (h.None? || h.value < s.order) {
          h := Some(s.order);
        }
        rest := rest - {k};
      }
    }
  }
}
