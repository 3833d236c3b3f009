/** The document procedures: list a case's documents, fetch one, record an upload (with an
    optional summary), partial update (rename, re-summarise, move between sections), delete,
    and the stand-alone summary request. */
module DocumentRouter {
  import opened Common
  import opened Schema
  import opened Store
  import Text

  /** A document with the section it is filed under, if any. */
  datatype DocumentView = DocumentView(document: Document, section: Option<Section>)

  /** A document with the user id of its case's owner, as `getById` selects it. */
  datatype DocumentDetail = DocumentDetail(document: Document, ownerId: UserId)

  /** What the completion service returned: it failed (threw), or it answered, with or
      without a text in its first choice. */
  datatype Completion = Failed | Completed(text: Option<string>)

  // ------------------------------------------------------------------ summaries

  /** `choices[0]?.text?.trim() || ""`: the trimmed text of an answer, "" when there is none. */
  function CompletionText(c: Completion): (r: string)
    ensures r == "" || (!Text.IsSpace(r[0]) && !Text.IsSpace(r[|r| - 1]))
    ensures c.Completed? && c.text.Some? && !Text.AllSpace(c.text.value) ==> r != ""
    ensures !(c.Completed? && c.text.Some?) ==> r == ""
    ensures c.Completed? && c.text.Some? ==> Text.CutFrom(c.text.value, r)
  {
    if c.Completed? && c.text.Some? then
      Text.TrimEmptyIff(c.text.value);
      Text.Trim(c.text.value)
    else ""
  }

  /** A stored summary is already trimmed, so trimming it again changes nothing. */
  lemma CompletionTextIsTrimmed(c: Completion)
    ensures Text.Trim(CompletionText(c)) == CompletionText(c)
  {
    if c.Completed? && c.text.Some? {
      Text.TrimIdempotent(c.text.value);
    }
  }

  /** The summary `create` stores: none without non-empty content, none when the service
      fails or answers only whitespace, else the trimmed answer. */
  function CreateSummary(content: Option<string>, c: Completion): (r: Option<string>)
    ensures r.None? <==> !Truthy(content) || c.Failed? || CompletionText(c) == ""
    ensures r.Some? ==> r.value == CompletionText(c) && r.value != ""
  {
    if !Truthy(content) || c.Failed? then None
    else
      var text := CompletionText(c);
      if text == "" then None else Some(text)
  }

  // ------------------------------------------------------------------ queries

  /** The section a stored document is filed under, if any. */
  function SectionOf(db: Db, d: Document): (r: Option<Section>)
    reads db
    requires db.Valid() && d.id in db.documents && db.documents[d.id] == d
    ensures r.None? <==> d.sectionId.None?
    ensures r.Some? ==> r.value == db.sections[d.sectionId.value] && r.value.id == d.sectionId.value
  {
    if d.sectionId.Some? then Some(db.sections[d.sectionId.value]) else None
  }

  function DocumentsOf(views: seq<DocumentView>): (r: seq<Document>)
    ensures |r| == |views| && forall i :: 0 <= i < |r| ==> r[i] == views[i].document
  {
    seq(|views|, i requires 0 <= i < |views| => views[i].document)
  }

  /** `getAll`: Unauthorized whether the case is missing or foreign; otherwise the case's
      documents, latest upload first, each with the section it is filed under. */
  method GetAll(db: Db, user: UserId, caseId: Id) returns (r: Result<seq<DocumentView>>)
    requires db.Valid()
    ensures r.Failure? <==> !db.OwnsCase(user, caseId)
    ensures r.Failure? ==> r.error == Unauthorized
    ensures r.Success? ==> db.DocumentListing(DocumentsOf(r.value), ByCase(caseId))
    ensures r.Success? ==> forall i :: 0 <= i < |r.value| ==>
      var v := r.value[i];
      && (v.section.None? <==> v.document.sectionId.None?)
      && (v.section.Some? ==> v.section.value == db.sections[v.document.sectionId.value])
  {
    var guard := db.CaseGuard(user, caseId, Unauthorized);
    if guard.Fail? {
      return Failure(guard.error);
    }
    var documents := db.FindDocuments(ByCase(caseId));
    var views: seq<DocumentView> := [];
    var i := 0;
    while i < |documents|
      invariant 0 <= i <= |documents|
      invariant |views| == i
      invariant forall j :: 0 <= j < i ==> views[j] == DocumentView(documents[j], views[j].section)
      invariant forall j :: 0 <= j < i ==> views[j].section == SectionOf(db, documents[j])
    {
      views := views + [DocumentView(documents[i], SectionOf(db, documents[i]))];
      i := i + 1;
    }
    assert DocumentsOf(views) == documents;
    r := Success(views);
  }

  /** `getById`: NotFound for a missing document, Unauthorized when its case is not the
      user's; otherwise the stored document with its case's owner. */
  method GetById(db: Db, user: UserId, id: Id) returns (r: Result<DocumentDetail>)
    requires db.Valid()
    ensures r.Failure? <==> db.DocumentGuard(user, id).Fail?
    ensures r.Failure? ==> r.error == db.DocumentGuard(user, id).error
    ensures r.Success? ==> r.value.document == db.documents[id] && r.value.ownerId == user
    ensures r.Success? ==> db.OwnsCase(user, r.value.document.caseId)
  {
    var guard := db.DocumentGuard(user, id);
    if guard.Fail? {
      return Failure(guard.error);
    }
    var d := db.documents[id];
    r := Success(DocumentDetail(d, db.cases[d.caseId].userId));
  }

  // ------------------------------------------------------------------ create

  /** `create`: Unauthorized whether the case is missing or foreign; when a non-empty section
      id names no section the insert fails as a whole; otherwise one new document in that
      case, filed under the section when one is named, uploaded now. */
  method Create(db: Db, user: UserId, caseId: Id, name: string, fileUrl: string, fileType: string,
                fileSize: int, sectionId: Option<Id>, content: Option<string>, completion: Completion, now: int)
    returns (r: Result<Document>)
    requires db.Valid()
    modifies db
    ensures db.Valid()
    ensures db.cases == old(db.cases) && db.sections == old(db.sections)
    ensures r == Failure(Unauthorized) <==> !old(db.OwnsCase(user, caseId))
    ensures r == Failure(InternalServerError) <==>
      old(db.OwnsCase(user, caseId)) && Truthy(sectionId) && sectionId.value !in old(db.sections)
    ensures r.Success? <==> old(db.OwnsCase(user, caseId)) && (!Truthy(sectionId) || sectionId.value in old(db.sections))
    ensures r.Failure? ==> db.documents == old(db.documents)
    ensures r.Success? ==>
      var d := r.value;
      && d.id !in old(db.documents) && db.documents == old(db.documents)[d.id := d]
      && d.caseId == caseId && d.name == name && d.fileUrl == fileUrl && d.fileType == fileType
      && d.fileSize == fileSize && d.uploadedAt == now
      && d.sectionId == (if Truthy(sectionId) then sectionId else None)
      && d.summary == CreateSummary(content, completion)
  {
    var guard := db.CaseGuard(user, caseId, Unauthorized);
    if guard.Fail? {
      return Failure(guard.error);
    }
    var summary := CreateSummary(content, completion);
    var link := if Truthy(sectionId) then sectionId else None;
    if link.Some? && link.value !in db.sections {
      return Failure(InternalServerError);
    }
    var d := AddDocument(db, caseId, link, name, fileUrl, fileType, fileSize, summary, now);
    r := Success(d);
  }

  /** The insert of `create`: a document with a fresh id and the given fields, linked to
      `caseId` and to `link`; no other table changes. */
  method AddDocument(db: Db, caseId: Id, link: Option<Id>, name: string, fileUrl: string, fileType: string,
                     fileSize: int, summary: Option<string>, now: int)
    returns (d: Document)
    requires db.Valid() && caseId in db.cases && (link.Some? ==> link.value in db.sections)
    modifies db
    ensures db.Valid()
    ensures db.cases == old(db.cases) && db.sections == old(db.sections)
    ensures d.id !in old(db.documents) && db.documents == old(db.documents)[d.id := d]
    ensures d == Document(d.id, caseId, link, name, fileUrl, fileType, fileSize, summary, now)
  {
    assert Issued(caseId, db.nextId);
    var id := db.FreshId();
    d := Document(id, caseId, link, name, fileUrl, fileType, fileSize, summary, now);
    db.PutDocument(d);
  }

  // ------------------------------------------------------------------ update

  /** The section link after `update`: kept when no section id is sent, cleared for null or
      "", set to any other id. */
  function NewLink(current: Option<Id>, input: Nullable<Id>): (r: Option<Id>)
    ensures input.Undefined? ==> r == current
    ensures input.Null? ==> r == None
    ensures input.Defined? && input.value == "" ==> r == None
    ensures input.Defined? && input.value != "" ==> r == Some(input.value)
  {
    match input
    case Undefined => current
    case Null => None
    case Defined(s) => if s == "" then None else Some(s)
  }

  /** The fields `update` writes: the name and the summary only when non-empty ones are given,
      the section link as `NewLink` says; nothing else. */
  function PatchDocument(d: Document, name: Option<string>, sectionId: Nullable<Id>, summary: Option<string>): (r: Document)
    ensures r.id == d.id && r.caseId == d.caseId && r.fileUrl == d.fileUrl && r.fileType == d.fileType
    ensures r.fileSize == d.fileSize && r.uploadedAt == d.uploadedAt
    ensures r.name == (if Truthy(name) then name.value else d.name)
    ensures r.summary == (if Truthy(summary) then summary else d.summary)
    ensures r.sectionId == NewLink(d.sectionId, sectionId)
  {
    var d1 := if Truthy(name) then d.(name := name.value) else d;
    var d2 := if Truthy(summary) then d1.(summary := summary) else d1;
    d2.(sectionId := NewLink(d.sectionId, sectionId))
  }

  /** `update`: NotFound for a missing document; Unauthorized when its case is not the user's;
      moving it to a section that does not exist fails as a whole; otherwise only that document
      changes, as `PatchDocument` says. */
  method Update(db: Db, user: UserId, id: Id, name: Option<string>, sectionId: Nullable<Id>, summary: Option<string>)
    returns (r: Result<Document>)
    requires db.Valid()
    modifies db
    ensures db.Valid()
    ensures db.cases == old(db.cases) && db.sections == old(db.sections)
    ensures r == Failure(NotFound) <==> id !in old(db.documents)
    ensures r == Failure(Unauthorized) <==> old(db.DocumentGuard(user, id)) == Fail(Unauthorized)
    ensures r == Failure(InternalServerError) <==>
      && old(db.DocumentGuard(user, id)) == Pass
      && sectionId.Defined? && sectionId.value != "" && sectionId.value !in old(db.sections)
    ensures r.Success? <==>
      && old(db.DocumentGuard(user, id)) == Pass
      && !(sectionId.Defined? && sectionId.value != "" && sectionId.value !in old(db.sections))
    ensures r.Failure? ==> db.documents == old(db.documents)
    ensures r.Success? ==>
      && id in old(db.documents)
      && r.value == PatchDocument(old(db.documents)[id], name, sectionId, summary)
      && db.documents == old(db.documents)[id := r.value]
  {
    var guard := db.DocumentGuard(user, id);
    if guard.Fail? {
      return Failure(guard.error);
    }
    var d := PatchDocument(db.documents[id], name, sectionId, summary);
    if d.sectionId.Some? && d.sectionId.value !in db.sections {
      return Failure(InternalServerError);
    }
    db.PutDocument(d);
    r := Success(d);
  }

  // ------------------------------------------------------------------ delete

  /** `delete`: NotFound for a missing document; Unauthorized when its case is not the user's;
      otherwise that document row alone is removed. */
  method Delete(db: Db, user: UserId, id: Id) returns (r: Result<Document>)
    requires db.Valid()
    modifies db
    ensures db.Valid()
    ensures db.cases == old(db.cases) && db.sections == old(db.sections)
    ensures r.Failure? <==> old(db.DocumentGuard(user, id)).Fail?
    ensures r.Failure? ==> r.error == old(db.DocumentGuard(user, id)).error && db.documents == old(db.documents)
    ensures r.Success? ==> r.value == old(db.documents)[id] && db.documents == old(db.documents) - {id}
  {
    var guard := db.DocumentGuard(user, id);
    if guard.Fail? {
      return Failure(guard.error);
    }
    r := Success(db.documents[id]);
    db.RemoveDocument(id);
  }

  // ------------------------------------------------------------------ generateSummary

  /** `generateSummary`: with a non-empty document id, NotFound / Unauthorized as for any
      document access; a failing service gives InternalServerError with nothing written;
      otherwise the trimmed answer (possibly "") is returned and, when a document was named,
      stored as its summary. */
  method GenerateSummary(db: Db, user: UserId, documentId: Option<Id>, completion: Completion)
    returns (r: Result<string>)
    requires db.Valid()
    modifies db
    ensures db.Valid()
    ensures db.cases == old(db.cases) && db.sections == old(db.sections)
    ensures r == Failure(NotFound) <==> Truthy(documentId) && documentId.value !in old(db.documents)
    ensures r == Failure(Unauthorized) <==> Truthy(documentId) && old(db.DocumentGuard(user, documentId.value)) == Fail(Unauthorized)
    ensures r == Failure(InternalServerError) <==>
      (!Truthy(documentId) || old(db.DocumentGuard(user, documentId.value)) == Pass) && completion.Failed?
    ensures r.Success? <==>
      (!Truthy(documentId) || old(db.DocumentGuard(user, documentId.value)) == Pass) && completion.Completed?
    ensures r.Failure? ==> db.documents == old(db.documents)
    ensures r.Success? ==> r.value == CompletionText(completion)
    ensures r.Success? && !Truthy(documentId) ==> db.documents == old(db.documents)
    ensures r.Success? && Truthy(documentId) ==>
      var id := documentId.value;
      && id in old(db.documents)
      && db.documents == old(db.documents)[id := old(db.documents)[id].(summary := Some(r.value))]
  {
    if Truthy(documentId) {
      var guard := db.DocumentGuard(user, documentId.value);
      if guard.Fail? {
        return Failure(guard.error);
      }
    }
    if completion.Failed? {
      return Failure(InternalServerError);
    }
    var summary := CompletionText(completion);
    if Truthy(documentId) {
      var id := documentId.value;
      db.PutDocument(db.documents[id].(summary := Some(summary)));
    }
    r := Success(summary);
  }
}
