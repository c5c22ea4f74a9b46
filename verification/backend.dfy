/** The remote side as the client sees it: the Firestore collections `files`,
    `folders` and `users`, and the Storage bucket. Each is a map; every remote
    call is an update of, or a lookup in, one of them. */
module Backend {
  import opened Results
  import opened WebCrypto


  type DocId = string
  type Uid = string

  /** A Storage download URL: the object it serves and its access token.
      Fetching it returns the object stored at `objectPath`. */
  datatype Url = DownloadUrl(objectPath: string, token: string)

  /** A document of the `files` collection (timestamps are server clock readings). */
  datatype FileRecord = FileRecord(
    name: string,
    originalType: string,
    size: nat,
    encryptedSize: nat,
    encryptedUrl: Url,
    iv: seq<int>,
    encryptedKey: seq<int>,
    ownerId: Uid,
    folderId: string,
    createdAt: int,
    updatedAt: int,
    isShared: bool)

  /** A document of the `folders` collection. */
  datatype FolderRecord = FolderRecord(
    name: string,
    parentId: string,
    ownerId: Uid,
    path: string,
    createdAt: int,
    updatedAt: int)

  /** A field value of a `users` document. */
  datatype Value = Str(text: string) | Flag(flag: bool) | Time(at: int) | Null

  /** A `users` document: field name to value. */
  type UserDoc = map<string, Value>

  datatype Cloud = Cloud(
    files: map<DocId, FileRecord>,
    folders: map<DocId, FolderRecord>,
    users: map<Uid, UserDoc>,
    objects: map<string, Bytes>)

  /** Characters of a Firestore auto-generated document id. */
  predicate IsAutoIdChar(c: char) {
    ('A' <= c <= 'Z') || ('a' <= c <= 'z') || ('0' <= c <= '9')
  }

  /** The ids `addDoc` gives new documents: 20 alphanumeric characters. */
  predicate IsAutoId(id: string) {
    |id| == 20 && forall i :: 0 <= i < |id| ==> IsAutoIdChar(id[i])
  }

  /** The message of the `TypeError` thrown by reading `uid` off a null
      `auth.currentUser` (V8's wording). */
  const NO_USER_ERROR: string := "Cannot read properties of null (reading 'uid')"

  /** The id files and folders at the top level carry as their folder. */
  const ROOT: string := "root"

  /** `folder || 'root'`: a missing or empty folder id means the root. */
  function FolderOrRoot(folder: Option<string>): (id: string)
    ensures id != ""
    ensures folder.Some? && folder.value != "" ==> id == folder.value
    ensures folder.None? || folder.value == "" ==> id == ROOT
  {
    if folder.Some? && folder.value != "" then folder.value else ROOT
  }

  /** Storage path of an uploaded file: `files/<uid>/<name>`. */
  function FileObjectPath(uid: Uid, name: string): string {
    "files/" + uid + "/" + name
  }

  /** JavaScript truthiness of a document field; a missing field is `undefined`. */
  predicate Truthy(v: Option<Value>) {
    match v
    case None => false
    case Some(Null) => false
    case Some(Str(t)) => t != ""
    case Some(Flag(b)) => b
    case Some(Time(_)) => true
  }

  function Field(doc: UserDoc, name: string): Option<Value> {
    if name in doc then Some(doc[name]) else None
  }

  /** `setDoc(ref, fields)` replaces the document; with `{merge: true}` the
      given fields overwrite and every other field is kept. */
  function SetDoc(current: Option<UserDoc>, fields: UserDoc, merge: bool): (r: UserDoc)
    ensures forall f :: f in fields ==> f in r && r[f] == fields[f]
    ensures r.Keys == fields.Keys + (if merge && current.Some? then current.value.Keys else {})
    ensures merge && current.Some? ==> forall f :: f in current.value && f !in fields ==> f in r && r[f] == current.value[f]
  {
    if merge && current.Some? then current.value + fields else fields
  }
}
