/** A Firestore document whose kind, version, data and pending-write state
    change in place as mutations and server reads are applied to it. */
module Documents {

  /** The path of a document. */
  datatype DocumentKey = DocumentKey(segments: seq<string>)

  /** A point in the server's timeline. */
  datatype SnapshotVersion = SnapshotVersion(seconds: int, nanoseconds: int)

  /** The version before any version. */
  const MIN_VERSION: SnapshotVersion := SnapshotVersion(0, 0)

  /** A field value; nested objects are not distinguished here. */
  datatype FieldValue = NullValue | BooleanValue(b: bool) | IntegerValue(i: int) | StringValue(s: string)

  /** The fields of a document. */
  datatype ObjectValue = ObjectValue(fields: map<string, FieldValue>)

  const EMPTY_OBJECT: ObjectValue := ObjectValue(map[])

  datatype DocumentType = INVALID | FOUND_DOCUMENT | NO_DOCUMENT | UNKNOWN_DOCUMENT

  /** Whether the document reflects writes the server has not confirmed. */
  datatype DocumentState = SYNCED | HAS_LOCAL_MUTATIONS | HAS_COMMITTED_MUTATIONS

  class MutableDocument {
    const key: DocumentKey
    var documentType: DocumentType
    var version: SnapshotVersion
    var data: ObjectValue
    var documentState: DocumentState

    constructor (key: DocumentKey, documentType: DocumentType, version: SnapshotVersion, data: ObjectValue,
                 documentState: DocumentState)
      ensures this.key == key && this.documentType == documentType && this.version == version
      ensures this.data == data && this.documentState == documentState
    {
      this.key := key;
      this.documentType := documentType;
      this.version := version;
      this.data := data;
      this.documentState := documentState;
    }

    /** A document known only by its key, which can serve as the base of
        mutations. */
    static method NewInvalidDocument(documentKey: DocumentKey) returns (d: MutableDocument)
      ensures fresh(d)
      ensures d.key == documentKey && d.documentType == INVALID && d.version == MIN_VERSION
      ensures d.data == EMPTY_OBJECT && d.documentState == SYNCED
      ensures !d.IsValidDocument() && !d.HasPendingWrites()
    {
      d := new MutableDocument(documentKey, INVALID, MIN_VERSION, EMPTY_OBJECT, SYNCED);
    }

    /** A document known to exist with the given data at the given version. */
    static method NewFoundDocument(documentKey: DocumentKey, version: SnapshotVersion, value: ObjectValue)
      returns (d: MutableDocument)
      ensures fresh(d)
      ensures d.key == documentKey && d.documentType == FOUND_DOCUMENT && d.version == version
      ensures d.data == value && d.documentState == SYNCED
      ensures d.IsFoundDocument() && !d.HasPendingWrites()
    {
      d := new MutableDocument(documentKey, FOUND_DOCUMENT, version, value, SYNCED);
    }

    /** A document known not to exist at the given version. */
    static method NewNoDocument(documentKey: DocumentKey, version: SnapshotVersion) returns (d: MutableDocument)
      ensures fresh(d)
      ensures d.key == documentKey && d.documentType == NO_DOCUMENT && d.version == version
      ensures d.data == EMPTY_OBJECT && d.documentState == SYNCED
      ensures d.IsNoDocument() && !d.HasPendingWrites()
    {
      d := new MutableDocument(documentKey, NO_DOCUMENT, version, EMPTY_OBJECT, SYNCED);
    }

    /** A document known to exist at the given version whose data is unknown. */
    static method NewUnknownDocument(documentKey: DocumentKey, version: SnapshotVersion) returns (d: MutableDocument)
      ensures fresh(d)
      ensures d.key == documentKey && d.documentType == UNKNOWN_DOCUMENT && d.version == version
      ensures d.data == EMPTY_OBJECT && d.documentState == HAS_COMMITTED_MUTATIONS
      ensures d.IsUnknownDocument() && d.HasPendingWrites()
    {
      d := new MutableDocument(documentKey, UNKNOWN_DOCUMENT, version, EMPTY_OBJECT, HAS_COMMITTED_MUTATIONS);
    }

    /** The document now exists, with known version and data. */
    method ConvertToFoundDocument(version: SnapshotVersion, value: ObjectValue) returns (r: MutableDocument)
      modifies this
      ensures r == this
      ensures this.version == version && documentType == FOUND_DOCUMENT && data == value
      ensures documentState == SYNCED
      ensures IsFoundDocument() && !HasPendingWrites()
    {
      this.version := version;
      documentType := FOUND_DOCUMENT;
      data := value;
      documentState := SYNCED;
      r := this;
    }

    /** The document is known not to exist at the given version. */
    method ConvertToNoDocument(version: SnapshotVersion) returns (r: MutableDocument)
      modifies this
      ensures r == this
      ensures this.version == version && documentType == NO_DOCUMENT && data == EMPTY_OBJECT
      ensures documentState == SYNCED
      ensures IsNoDocument() && !HasPendingWrites()
    {
      this.version := version;
      documentType := NO_DOCUMENT;
      data := EMPTY_OBJECT;
      documentState := SYNCED;
      r := this;
    }

    /** The document exists at the given version, its data unknown. */
    method ConvertToUnknownDocument(version: SnapshotVersion) returns (r: MutableDocument)
      modifies this
      ensures r == this
      ensures this.version == version && documentType == UNKNOWN_DOCUMENT && data == EMPTY_OBJECT
      ensures documentState == HAS_COMMITTED_MUTATIONS
      ensures IsUnknownDocument() && HasPendingWrites()
    {
      this.version := version;
      documentType := UNKNOWN_DOCUMENT;
      data := EMPTY_OBJECT;
      documentState := HAS_COMMITTED_MUTATIONS;
      r := this;
    }

    /** Only the pending-write state changes. */
    method SetHasCommittedMutations() returns (r: MutableDocument)
      modifies this
      ensures r == this
      ensures documentState == HAS_COMMITTED_MUTATIONS
      ensures documentType == old(documentType) && version == old(version) && data == old(data)
      ensures HasCommittedMutations() && !HasLocalMutations() && HasPendingWrites()
    {
      documentState := HAS_COMMITTED_MUTATIONS;
      r := this;
    }

    /** Only the pending-write state changes. */
    method SetHasLocalMutations() returns (r: MutableDocument)
      modifies this
      ensures r == this
      ensures documentState == HAS_LOCAL_MUTATIONS
      ensures documentType == old(documentType) && version == old(version) && data == old(data)
      ensures HasLocalMutations() && !HasCommittedMutations() && HasPendingWrites()
    {
      documentState := HAS_LOCAL_MUTATIONS;
      r := this;
    }

    predicate HasLocalMutations()
      reads this
    {
      documentState == HAS_LOCAL_MUTATIONS
    }

    predicate HasCommittedMutations()
      reads this
    {
      documentState == HAS_COMMITTED_MUTATIONS
    }

    /** Local or acknowledged writes not yet seen from the server. */
    predicate HasPendingWrites()
      reads this
    {
      HasLocalMutations() || HasCommittedMutations()
    }

    predicate IsValidDocument()
      reads this
    {
      documentType != INVALID
    }

    predicate IsFoundDocument()
      reads this
    {
      documentType == FOUND_DOCUMENT
    }

    predicate IsNoDocument()
      reads this
    {
      documentType == NO_DOCUMENT
    }

    predicate IsUnknownDocument()
      reads this
    {
      documentType == UNKNOWN_DOCUMENT
    }

    /** Same key, version, kind, pending-write state and data. */
    predicate IsEqual(other: MutableDocument?)
      reads this, other
    {
      other != null &&
      key == other.key &&
      version == other.version &&
      documentType == other.documentType &&
      documentState == other.documentState &&
      data == other.data
    }

    /** A new document with the same five fields. */
    method Clone() returns (c: MutableDocument)
      ensures fresh(c)
      ensures c.key == key && c.documentType == documentType && c.version == version
      ensures c.data == data && c.documentState == documentState
      ensures c.IsEqual(this) && IsEqual(c)
    {
      c := new MutableDocument(key, documentType, version, data, documentState);
    }
  }

  /** A document is valid exactly when it is found, missing or unknown, and
      it is at most one of these. */
  lemma ValidMeansOneKind(d: MutableDocument)
    ensures d.IsValidDocument() <==> d.IsFoundDocument() || d.IsNoDocument() || d.IsUnknownDocument()
    ensures !(d.IsFoundDocument() && d.IsNoDocument())
    ensures !(d.IsFoundDocument() && d.IsUnknownDocument())
    ensures !(d.IsNoDocument() && d.IsUnknownDocument())
  {
  }

  /** Pending writes are exactly the unsynced states, and a document never
      has both local and committed mutations. */
  lemma PendingWritesMeansUnsynced(d: MutableDocument)
    ensures d.HasPendingWrites() <==> d.documentState != SYNCED
    ensures !(d.HasLocalMutations() && d.HasCommittedMutations())
  {
  }

  /** isEqual is an equivalence on documents. */
  lemma IsEqualIsEquivalence(a: MutableDocument, b: MutableDocument, c: MutableDocument)
    ensures a.IsEqual(a)
    ensures a.IsEqual(b) ==> b.IsEqual(a)
    ensures a.IsEqual(b) && b.IsEqual(c) ==> a.IsEqual(c)
  {
  }

  /** isEqual sees every field: documents that differ in one are not equal. */
  lemma IsEqualDistinguishesFields(a: MutableDocument, b: MutableDocument)
    requires a.key != b.key || a.version != b.version || a.documentType != b.documentType ||
             a.documentState != b.documentState || a.data != b.data
    ensures !a.IsEqual(b)
  {
  }
}
