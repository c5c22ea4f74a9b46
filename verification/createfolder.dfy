/** The create-folder dialog (`CreateFolderModal.jsx`): validating the typed
    name and adding a document to the `folders` collection. */
module CreateFolder {
  import opened Results
  import opened Backend
  import opened Text
  import opened Listing
  import opened FileList

  const EMPTY_NAME_ERROR: string := "Please enter a folder name"
  const CREATE_ERROR_PREFIX: string := "Failed to create folder: "

  /** The dialog's own state: the input, the busy flag, the error line. */
  datatype Modal = Modal(folderName: string, isCreating: bool, error: string)

  /** The environment of one submit: the signed-in user, what `addDoc`
      answers (the new id or the SDK's message), and `serverTimestamp()`. */
  datatype CreateOracle = CreateOracle(currentUser: Option<Uid>, added: Result<DocId>, serverTime: int)

  /** After a submit: the dialog's state, the backend, whether `onClose` was
      called, and the id passed to `onFolderCreated`, if any. */
  datatype SubmitResult = SubmitResult(modal: Modal, cloud: Cloud, closed: bool, created: Option<DocId>)

  /** The document written for a new folder. The name is the trimmed input;
      a missing or empty parent means the root, and the path is
      `<parent>/<name>` under a given parent, else the name alone. */
  function NewFolderRecord(input: string, parentFolder: Option<string>, uid: Uid, now: int): (r: FolderRecord)
    ensures r.name == Trim(input) && IsTrimmed(r.name)
    ensures r.name == "" <==> IsBlank(input)
    ensures r.parentId == FolderOrRoot(parentFolder)
    ensures r.ownerId == uid && r.createdAt == now && r.updatedAt == now
  {
    var name := Trim(input);
    var parentGiven := parentFolder.Some? && parentFolder.value != "";
    FolderRecord(
      name := name,
      parentId := FolderOrRoot(parentFolder),
      ownerId := uid,
      path := if parentGiven then parentFolder.value + "/" + name else name,
      createdAt := now,
      updatedAt := now)
  }

  /** The path names the parent the record points to, then the folder's own
      name: under a given parent it is `parentId + "/" + name` and ends in the
      name; at the root (no parent given) it is the name alone. */
  lemma FolderPathShape(input: string, parentFolder: Option<string>, uid: Uid, now: int)
    ensures var r := NewFolderRecord(input, parentFolder, uid, now);
      && (parentFolder.Some? && parentFolder.value != "" ==>
            && r.path == r.parentId + "/" + r.name
            && r.path[|r.path| - |r.name|..] == r.name
            && r.path[..|r.parentId|] == r.parentId)
      && (parentFolder.None? || parentFolder.value == "" ==> r.path == r.name && r.parentId == ROOT)
  {
    var r := NewFolderRecord(input, parentFolder, uid, now);
    if parentFolder.Some? && parentFolder.value != "" {
      assert r.path == r.parentId + ("/" + r.name);
    }
  }

  /** The dashboard always passes its current folder, which starts as
      `'root'`: so a top-level folder's path is `root/<name>`, not `<name>`. */
  lemma TopLevelPath(input: string, uid: Uid, now: int)
    ensures NewFolderRecord(input, Some(ROOT), uid, now).path == ROOT + "/" + Trim(input)
    ensures NewFolderRecord(input, Some(ROOT), uid, now).parentId == ROOT
  {
  }

  /** `handleSubmit`. A closed dialog renders no form, so there is nothing
      to submit. A blank name only sets the error. Otherwise the document is
      added; success clears the input and the error, closes the dialog and
      reports the new id; a failure (a null `auth.currentUser` included)
      shows its message after the prefix. Either way `isCreating` ends false. */
  function HandleSubmit(isOpen: bool, m: Modal, parentFolder: Option<string>, o: CreateOracle, cloud: Cloud): (r: SubmitResult)
    ensures !isOpen ==> r == SubmitResult(m, cloud, false, None)
    ensures isOpen && IsBlank(m.folderName) ==> r == SubmitResult(m.(error := EMPTY_NAME_ERROR), cloud, false, None)
    ensures isOpen && !IsBlank(m.folderName) ==> !r.modal.isCreating
    ensures isOpen && !IsBlank(m.folderName) ==> (r.created.Some? <==> o.currentUser.Some? && o.added.Ok?)
    ensures r.created.Some? ==>
      && r.created == Some(o.added.value)
      && r.closed && r.modal == Modal("", false, "")
      && r.cloud == cloud.(folders := cloud.folders[o.added.value :=
           NewFolderRecord(m.folderName, parentFolder, o.currentUser.value, o.serverTime)])
    ensures r.created.None? ==> !r.closed && r.cloud == cloud && r.modal.folderName == m.folderName
    ensures isOpen && !IsBlank(m.folderName) && o.currentUser.None? ==>
      r.modal.error == CREATE_ERROR_PREFIX + NO_USER_ERROR
    ensures isOpen && !IsBlank(m.folderName) && o.currentUser.Some? && o.added.Err? ==>
      r.modal.error == CREATE_ERROR_PREFIX + o.added.message
  {
    if !isOpen then SubmitResult(m, cloud, false, None)
    else if Trim(m.folderName) == "" then SubmitResult(m.(error := EMPTY_NAME_ERROR), cloud, false, None)
    else
      var busy := m.(error := "", isCreating := true);
      match o.currentUser
      case None => SubmitResult(busy.(error := CREATE_ERROR_PREFIX + NO_USER_ERROR, isCreating := false), cloud, false, None)
      case Some(uid) =>
        match o.added
        case Err(msg) => SubmitResult(busy.(error := CREATE_ERROR_PREFIX + msg, isCreating := false), cloud, false, None)
        case Ok(id) =>
          var rec := NewFolderRecord(m.folderName, parentFolder, uid, o.serverTime);
          SubmitResult(Modal("", false, ""), cloud.(folders := cloud.folders[id := rec]), true, Some(id))
  }

  /** The dialog closes exactly when its error line ends up empty: every
      failure leaves a message, success leaves none. */
  lemma ClosedIffNoError(isOpen: bool, m: Modal, parentFolder: Option<string>, o: CreateOracle, cloud: Cloud)
    requires isOpen
    ensures var r := HandleSubmit(isOpen, m, parentFolder, o, cloud);
      r.closed <==> r.modal.error == ""
  {
    var r := HandleSubmit(isOpen, m, parentFolder, o, cloud);
    if !r.closed {
      if IsBlank(m.folderName) {
        assert r.modal.error[0] == 'P';
      } else {
        assert r.modal.error[..|CREATE_ERROR_PREFIX|] == CREATE_ERROR_PREFIX;
      }
    }
  }

  /** After a folder is created in the folder the dashboard shows, the
      refreshed listing for its owner holds it, under its trimmed name. */
  lemma CreatedFolderIsListed(isOpen: bool, m: Modal, parentFolder: Option<string>, o: CreateOracle, cloud: Cloud,
                              listing: seq<Entry<FolderRecord>>)
    requires HandleSubmit(isOpen, m, parentFolder, o, cloud).created.Some?
    requires Lists(listing, HandleSubmit(isOpen, m, parentFolder, o, cloud).cloud.folders,
                   FolderFilter(o.currentUser.value, FolderOrRoot(parentFolder)), FolderName)
    ensures exists k :: 0 <= k < |listing| && listing[k].id == o.added.value && listing[k].name == Trim(m.folderName)
  {
    var r := HandleSubmit(isOpen, m, parentFolder, o, cloud);
    var id := o.added.value;
    var filter := FolderFilter(o.currentUser.value, FolderOrRoot(parentFolder));
    assert id in r.cloud.folders && filter(r.cloud.folders[id]);
    var k :| 0 <= k < |listing| && listing[k].id == id;
  }
}
