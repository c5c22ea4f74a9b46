/** The file browser (`FileList.jsx`): listing the current folder, downloading
    and decrypting a file, deleting a file or a folder, selecting a row, and
    choosing a file's icon. The component's state is a `ListView`; the
    backend is a `Cloud`. */
module FileList {
  import opened Results
  import opened WebCrypto
  import opened Backend
  import opened Encryption
  import opened Listing
  import Text

  const LOAD_ERROR: string := "Failed to load files and folders"
  const DOWNLOAD_ALERT_PREFIX: string := "Failed to download file: "
  const DELETE_ALERT_PREFIX: string := "Failed to delete: "

  /** The component's state: the two listings, the loading flag, the error
      shown instead of the table, and the id of the expanded file row. */
  datatype ListView = ListView(
    files: seq<Entry<FileRecord>>,
    folders: seq<Entry<FolderRecord>>,
    loading: bool,
    error: string,
    selected: Option<DocId>)

  /** A row the user acts on; its constructor is the row's `type`. */
  datatype Item = FileItem(file: Entry<FileRecord>) | FolderItem(folder: Entry<FolderRecord>)

  /** `where('ownerId', '==', uid), where('parentId', '==', parent)` on `folders`. */
  function FolderFilter(uid: Uid, parent: string): FolderRecord -> bool {
    (f: FolderRecord) => f.ownerId == uid && f.parentId == parent
  }

  /** `where('ownerId', '==', uid), where('folderId', '==', folder)` on `files`. */
  function FileFilter(uid: Uid, folder: string): FileRecord -> bool {
    (f: FileRecord) => f.ownerId == uid && f.folderId == folder
  }

  function FolderName(f: FolderRecord): string { f.name }
  function FileName(f: FileRecord): string { f.name }

  /** `fetchItems`: both queries for the signed-in user and the current
      folder. `folderRead`/`fileRead` are the outcomes of the two `getDocs`
      calls. Any failure leaves both lists as they were and sets the error;
      success does not clear an earlier error. */
  method FetchItems(cloud: Cloud, currentUser: Option<Uid>, currentFolder: string,
                    folderRead: Outcome, fileRead: Outcome, v: ListView) returns (r: ListView)
    ensures !r.loading && r.selected == v.selected
    ensures currentUser.None? || folderRead.Fail? || fileRead.Fail? ==>
      r == v.(loading := false, error := LOAD_ERROR)
    ensures currentUser.Some? && folderRead.Pass? && fileRead.Pass? ==>
      && r.error == v.error
      && Sorted(r.folders) && Lists(r.folders, cloud.folders, FolderFilter(currentUser.value, currentFolder), FolderName)
      && Sorted(r.files) && Lists(r.files, cloud.files, FileFilter(currentUser.value, currentFolder), FileName)
  {
    if currentUser.None? || folderRead.Fail? || fileRead.Fail? {
      return v.(loading := false, error := LOAD_ERROR);
    }
    var uid := currentUser.value;
    var folderList := Query(cloud.folders, FolderFilter(uid, currentFolder), FolderName);
    var fileList := Query(cloud.files, FileFilter(uid, currentFolder), FileName);
    r := v.(folders := folderList, files := fileList, loading := false);
  }

  /** Whether the browser can reach Storage; when it can, a missing object
      is answered with an error page whose bytes are `notFoundBody`. */
  datatype Network = Online(notFoundBody: Bytes) | Offline(message: string)

  /** `fetch(url)` followed by `response.arrayBuffer()`: `fetch` rejects only
      when the network fails, so a missing object yields the error page. */
  function Fetch(cloud: Cloud, url: Url, net: Network): (r: Result<Bytes>)
    ensures r.Err? <==> net.Offline?
    ensures net.Online? && url.objectPath in cloud.objects ==> r == Ok(cloud.objects[url.objectPath])
  {
    match net
    case Offline(m) => Err(m)
    case Online(body) =>
      if url.objectPath in cloud.objects then Ok(cloud.objects[url.objectPath]) else Ok(body)
  }

  /** What a download ends in: the decrypted file saved under a name, or an alert. */
  datatype DownloadOutcome = Saved(file: File, downloadName: string) | DownloadAlert(message: string)

  /** `handleDownload(file)`: fetch the ciphertext from `encryptedUrl`, import
      the key from `encryptedKey` (as a `Uint8Array`), decrypt with `iv` (a
      plain array, as stored), and save the result as `file.name`. Any
      failure becomes an alert carrying the failing step's message. */
  function HandleDownload(s: Subtle, cloud: Cloud, file: FileRecord, net: Network, now: int): (r: DownloadOutcome)
    ensures r.Saved? ==>
      && r.downloadName == file.name
      && r.file.name == file.name
      && r.file.mimeType == file.originalType
      && r.file.lastModified == now
    ensures r.Saved? ==> exists data, key ::
      && Fetch(cloud, file.encryptedUrl, net) == Ok(data)
      && ImportEncryptionKey(s, Uint8Array(NewUint8Array(file.encryptedKey))) == Ok(key)
      && Decrypt(s, AES_GCM, NewUint8Array(file.iv), key, data) == Some(r.file.content)
    ensures net.Offline? ==> r == DownloadAlert(DOWNLOAD_ALERT_PREFIX + net.message)
    ensures net.Online? && !s.available ==> r == DownloadAlert(DOWNLOAD_ALERT_PREFIX + IMPORT_KEY_ERROR)
  {
    match Fetch(cloud, file.encryptedUrl, net)
    case Err(m) => DownloadAlert(DOWNLOAD_ALERT_PREFIX + m)
    case Ok(data) =>
      match ImportEncryptionKey(s, Uint8Array(NewUint8Array(file.encryptedKey)))
      case Err(m) => DownloadAlert(DOWNLOAD_ALERT_PREFIX + m)
      case Ok(key) =>
        match DecryptFile(s, data, NumberArray(file.iv), key, file.name, file.originalType, now)
        case Err(m) => DownloadAlert(DOWNLOAD_ALERT_PREFIX + m)
        case Ok(plain) => Saved(plain, file.name)
  }

  /** The environment of one `handleDelete`: the confirmation dialog's answer,
      the signed-in user, and whether the two remote deletions go through
      (a failure carries the SDK's message). */
  datatype DeleteOracle = DeleteOracle(confirmed: bool, currentUser: Option<Uid>, storageDelete: Outcome, docDelete: Outcome)

  datatype DeleteResult = DeleteResult(cloud: Cloud, view: ListView, alert: Option<string>)

  /** The message Storage rejects `deleteObject` with when nothing is stored at `path`. */
  function ObjectNotFound(path: string): string {
    "Firebase Storage: Object '" + path + "' does not exist. (storage/object-not-found)"
  }

  /** `deleteObject(ref(storage, path))`. */
  function DeleteObject(c: Cloud, path: string, outcome: Outcome): (r: Result<Cloud>)
    ensures r.Ok? <==> outcome.Pass? && path in c.objects
    ensures r.Ok? ==> r.value == c.(objects := c.objects - {path}) && path !in r.value.objects
    ensures outcome.Pass? && path !in c.objects ==> r == Err(ObjectNotFound(path))
  {
    match outcome
    case Fail(m) => Err(m)
    case Pass => if path in c.objects then Ok(c.(objects := c.objects - {path})) else Err(ObjectNotFound(path))
  }

  /** Removing a file: its Storage object at `path`, then its document, then its row. */
  function DeleteFileAt(c: Cloud, view: ListView, id: DocId, path: string, o: DeleteOracle): DeleteResult {
    match DeleteObject(c, path, o.storageDelete)
    case Err(m) => DeleteResult(c, view, Some(DELETE_ALERT_PREFIX + m))
    case Ok(c1) =>
      match o.docDelete
      case Fail(m) => DeleteResult(c1, view, Some(DELETE_ALERT_PREFIX + m))
      case Pass => DeleteResult(c1.(files := c1.files - {id}), view.(files := RemoveId(view.files, id)), None)
  }

  /** Removing a folder: only its own document and row; nothing inside it. */
  function DeleteFolder(c: Cloud, view: ListView, id: DocId, o: DeleteOracle): DeleteResult {
    match o.docDelete
    case Fail(m) => DeleteResult(c, view, Some(DELETE_ALERT_PREFIX + m))
    case Pass => DeleteResult(c.(folders := c.folders - {id}), view.(folders := RemoveId(view.folders, id)), None)
  }

  /** `handleDelete(item)` as written: the Storage object it removes for a
      file is `files/<uid>/<document id>`. */
  function HandleDeleteAsWritten(c: Cloud, view: ListView, item: Item, o: DeleteOracle): (r: DeleteResult)
    ensures !o.confirmed ==> r == DeleteResult(c, view, None)
    ensures o.confirmed && item.FileItem? && o.currentUser.Some? ==>
      r == DeleteFileAt(c, view, item.file.id, FileObjectPath(o.currentUser.value, item.file.id), o)
    ensures o.confirmed && item.FileItem? && o.currentUser.None? ==>
      r == DeleteResult(c, view, Some(DELETE_ALERT_PREFIX + NO_USER_ERROR))
    ensures o.confirmed && item.FolderItem? ==> r == DeleteFolder(c, view, item.folder.id, o)
  {
    if !o.confirmed then DeleteResult(c, view, None)
    else
      match item
      case FileItem(e) =>
        (match o.currentUser
         case None => DeleteResult(c, view, Some(DELETE_ALERT_PREFIX + NO_USER_ERROR))
         case Some(uid) => DeleteFileAt(c, view, e.id, FileObjectPath(uid, e.id), o))
      case FolderItem(e) => DeleteFolder(c, view, e.id, o)
  }

  /** `handleDelete(item)` with the object located through the record's own
      download URL (`ref(storage, file.encryptedUrl)`), which is where the
      upload put it. */
  function HandleDelete(c: Cloud, view: ListView, item: Item, o: DeleteOracle): (r: DeleteResult)
    ensures !o.confirmed ==> r == DeleteResult(c, view, None)
    ensures o.confirmed && item.FileItem? ==>
      r == DeleteFileAt(c, view, item.file.id, item.file.data.encryptedUrl.objectPath, o)
    ensures o.confirmed && item.FolderItem? ==> r == DeleteFolder(c, view, item.folder.id, o)
  {
    if !o.confirmed then DeleteResult(c, view, None)
    else
      match item
      case FileItem(e) => DeleteFileAt(c, view, e.id, e.data.encryptedUrl.objectPath, o)
      case FolderItem(e) => DeleteFolder(c, view, e.id, o)
  }

  /** A successful file deletion removes exactly that object, that document
      and the rows with that id; folders and every other file stay. */
  lemma DeleteFileEffect(c: Cloud, view: ListView, id: DocId, path: string, o: DeleteOracle)
    requires o.storageDelete.Pass? && o.docDelete.Pass? && path in c.objects
    ensures var r := DeleteFileAt(c, view, id, path, o);
      && r.alert.None?
      && r.cloud.objects.Keys == c.objects.Keys - {path}
      && (forall p :: p in r.cloud.objects ==> r.cloud.objects[p] == c.objects[p])
      && r.cloud.files.Keys == c.files.Keys - {id}
      && (forall i :: i in r.cloud.files ==> r.cloud.files[i] == c.files[i])
      && r.cloud.folders == c.folders && r.cloud.users == c.users
      && r.view.folders == view.folders
      && (forall k :: 0 <= k < |r.view.files| ==> r.view.files[k].id != id && r.view.files[k] in view.files)
      && (forall k :: 0 <= k < |view.files| && view.files[k].id != id ==> view.files[k] in r.view.files)
      && (Sorted(view.files) ==> Sorted(r.view.files))
  {
    if Sorted(view.files) {
      RemoveIdSorted(view.files, id);
    }
  }

  /** Deleting a folder is not recursive: files, objects and the folder's
      subfolders stay; only its own document and row go. */
  lemma DeleteFolderEffect(c: Cloud, view: ListView, id: DocId, o: DeleteOracle)
    requires o.docDelete.Pass?
    ensures var r := DeleteFolder(c, view, id, o);
      && r.alert.None?
      && r.cloud.files == c.files && r.cloud.objects == c.objects && r.cloud.users == c.users
      && r.cloud.folders.Keys == c.folders.Keys - {id}
      && (forall i :: i in r.cloud.folders ==> r.cloud.folders[i] == c.folders[i])
      && r.view.files == view.files
      && (forall k :: 0 <= k < |r.view.folders| ==> r.view.folders[k].id != id && r.view.folders[k] in view.folders)
      && (forall k :: 0 <= k < |view.folders| && view.folders[k].id != id ==> view.folders[k] in r.view.folders)
      && (Sorted(view.folders) ==> Sorted(r.view.folders))
  {
    if Sorted(view.folders) {
      RemoveIdSorted(view.folders, id);
    }
  }

  /** A failed deletion leaves the view as it was and reports the failure;
      when the object was already removed and only the document failed, the
      record stays and now points at nothing. */
  lemma DeleteFileFailure(c: Cloud, view: ListView, id: DocId, path: string, o: DeleteOracle)
    requires o.storageDelete.Fail? || path !in c.objects || o.docDelete.Fail?
    ensures var r := DeleteFileAt(c, view, id, path, o);
      && r.view == view
      && r.alert.Some? && |DELETE_ALERT_PREFIX| <= |r.alert.value| && r.alert.value[..|DELETE_ALERT_PREFIX|] == DELETE_ALERT_PREFIX
      && r.cloud.files == c.files
      && (r.cloud.objects != c.objects ==> o.storageDelete.Pass? && path in c.objects && o.docDelete.Fail? && path !in r.cloud.objects)
  {
    var r := DeleteFileAt(c, view, id, path, o);
    var m := r.alert.value;
    assert m[..|DELETE_ALERT_PREFIX|] == DELETE_ALERT_PREFIX by {
      var rest :| m == DELETE_ALERT_PREFIX + rest;
    }
  }

  /** What a click on a row does: which folder to open (`onFolderClick(id,
      name)`), and the expanded file row afterwards. */
  datatype Click = Click(navigateTo: Option<(DocId, string)>, selected: Option<DocId>)

  /** `handleItemClick(item)`: a folder is forwarded when a handler is given
      (and otherwise ignored); a file row toggles: clicking the expanded row
      collapses it, clicking any other expands it instead. */
  function HandleItemClick(item: Item, hasFolderHandler: bool, selected: Option<DocId>): (r: Click)
    ensures item.FolderItem? ==> r.selected == selected
    ensures r.navigateTo.Some? <==> item.FolderItem? && hasFolderHandler
    ensures r.navigateTo.Some? ==> r.navigateTo.value == (item.folder.id, item.folder.data.name)
    ensures item.FileItem? ==> (r.selected.Some? <==> selected != Some(item.file.id))
    ensures item.FileItem? && r.selected.Some? ==> r.selected.value == item.file.id
  {
    match item
    case FolderItem(e) => if hasFolderHandler then Click(Some((e.id, e.data.name)), selected) else Click(None, selected)
    case FileItem(e) => Click(None, if selected == Some(e.id) then None else Some(e.id))
  }

  /** Two clicks on the same file row restore the selection when that row or
      no row was expanded; when another row was expanded, they leave none. */
  lemma ClickTwice(item: Item, hasFolderHandler: bool, selected: Option<DocId>)
    requires item.FileItem?
    ensures var twice := HandleItemClick(item, hasFolderHandler, HandleItemClick(item, hasFolderHandler, selected).selected).selected;
      && (selected.None? || selected == Some(item.file.id) ==> twice == selected)
      && (selected.Some? && selected != Some(item.file.id) ==> twice.None?)
  {
  }

  datatype Icon = ImageIcon | PdfIcon | VideoIcon | AudioIcon | GenericIcon

  /** `getFileIcon(file)`: the first of "image", "pdf", "video", "audio" that
      occurs in `originalType` decides; a missing type counts as "". */
  function FileIcon(originalType: Option<string>): (r: Icon)
    ensures var t := if originalType.Some? then originalType.value else "";
      && (r == ImageIcon <==> Text.Contains(t, "image"))
      && (r == PdfIcon <==> !Text.Contains(t, "image") && Text.Contains(t, "pdf"))
      && (r == VideoIcon <==> !Text.Contains(t, "image") && !Text.Contains(t, "pdf") && Text.Contains(t, "video"))
      && (r == AudioIcon <==> !Text.Contains(t, "image") && !Text.Contains(t, "pdf") && !Text.Contains(t, "video") && Text.Contains(t, "audio"))
  {
    var t := if originalType.Some? then originalType.value else "";
    if Text.Contains(t, "image") then ImageIcon
    else if Text.Contains(t, "pdf") then PdfIcon
    else if Text.Contains(t, "video") then VideoIcon
    else if Text.Contains(t, "audio") then AudioIcon
    else GenericIcon
  }

  /** A missing or empty type gets the generic icon. */
  lemma NoTypeIsGeneric()
    ensures FileIcon(None) == GenericIcon && FileIcon(Some("")) == GenericIcon
  {
    Text.MissingCharNotContained("", "image", 'i');
    Text.MissingCharNotContained("", "pdf", 'p');
    Text.MissingCharNotContained("", "video", 'v');
    Text.MissingCharNotContained("", "audio", 'a');
  }

  /** A type mentioning "pdf" and not "image" gets the PDF icon, whatever else it mentions. */
  lemma PdfWins(t: string, i: nat)
    requires Text.OccursAt(t, "pdf", i) && !Text.Contains(t, "image")
    ensures FileIcon(Some(t)) == PdfIcon
  {
  }

  /** A type mentioning "video" and neither "image" nor "pdf" gets the video icon. */
  lemma VideoWins(t: string, i: nat)
    requires Text.OccursAt(t, "video", i) && !Text.Contains(t, "image") && !Text.Contains(t, "pdf")
    ensures FileIcon(Some(t)) == VideoIcon
  {
  }

  /** A type mentioning "audio" and none of the three before it gets the audio icon. */
  lemma AudioWins(t: string, i: nat)
    requires Text.OccursAt(t, "audio", i)
    requires !Text.Contains(t, "image") && !Text.Contains(t, "pdf") && !Text.Contains(t, "video")
    ensures FileIcon(Some(t)) == AudioIcon
  {
  }

  /** A type that lacks a letter of each of the four words gets the generic icon. */
  lemma GenericWhenLettersMissing(t: string, ci: char, cp: char, cv: char, ca: char)
    requires ci in "image" && ci !in t
    requires cp in "pdf" && cp !in t
    requires cv in "video" && cv !in t
    requires ca in "audio" && ca !in t
    ensures FileIcon(Some(t)) == GenericIcon
  {
    Text.MissingCharNotContained(t, "image", ci);
    Text.MissingCharNotContained(t, "pdf", cp);
    Text.MissingCharNotContained(t, "video", cv);
    Text.MissingCharNotContained(t, "audio", ca);
  }

  /** Any type mentioning "image" gets the image icon, whatever else it mentions. */
  lemma ImageWins(t: string, i: nat)
    requires Text.OccursAt(t, "image", i)
    ensures FileIcon(Some(t)) == ImageIcon
  {
  }
}
