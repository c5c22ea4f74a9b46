/** How the upload and the file browser fit together: what one file's upload
    writes is exactly what a download reads back, and what a deletion has to
    remove. */
module RoundTrip {
  import opened Results
  import opened WebCrypto
  import opened Backend
  import opened Encryption
  import opened Listing
  import opened Upload
  import opened FileList

  /** A file uploaded once and downloaded from its metadata document comes
      back with its original bytes, name and type, and is saved under its
      original name (given AES-GCM's round trip and a reachable network). */
  lemma UploadThenDownload(s: Subtle, cloud: Cloud, file: File, currentFolder: Option<string>, o: FileOracle,
                           net: Network, now: int)
    requires IsAead(s) && net.Online?
    requires ProcessFile(s, file, currentFolder, o).failure.None?
    ensures var one := ProcessFile(s, file, currentFolder, o);
      && |one.writes| == 2 && one.writes[1].AddFile?
      && HandleDownload(s, Apply(cloud, one.writes), one.writes[1].record, net, now)
           == Saved(File(file.name, file.mimeType, file.content, now), file.name)
  {
    var one := ProcessFile(s, file, currentFolder, o);
    var key := GenerateFileKey(s, o.keyDraw).value;
    var sealed := EncryptFile(s, file, key, o.ivDraw, o.encryptedAt).value;
    var uid := o.currentUser.value;
    var path := FileObjectPath(uid, FileId(o.millis, o.randomPart));
    var url := DownloadUrl(path, o.urlToken.value);
    var record := MetadataRecord(file, sealed, url, uid, currentFolder, o.serverTime);
    assert one.writes == [PutObject(path, sealed.encryptedFile.content), AddFile(o.docId.value, record)];
    PutThenAdd(cloud, path, sealed.encryptedFile.content, o.docId.value, record);
    ExportThenImport(s, o.keyDraw, key, file, o.ivDraw, o.encryptedAt, sealed, true);
    SealThenOpen(s, key, file, o.ivDraw, o.encryptedAt, sealed, false, now);
  }

  /** The two writes of a completed file, applied in order. */
  lemma PutThenAdd(c: Cloud, path: string, data: Bytes, id: DocId, rec: FileRecord)
    ensures Apply(c, [PutObject(path, data), AddFile(id, rec)])
      == c.(objects := c.objects[path := data], files := c.files[id := rec])
  {
    var c1 := c.(objects := c.objects[path := data]);
    assert [PutObject(path, data), AddFile(id, rec)][1..] == [AddFile(id, rec)];
    assert Apply(c1, [AddFile(id, rec)]) == Apply(c1.(files := c.files[id := rec]), []);
  }

  /** In `<uid>/<name>` with a slash-free uid, the first '/' ends the uid. */
  lemma SplitAtSlash(u: Uid, a: string)
    requires '/' !in u
    ensures var q := u + "/" + a;
      && q[|u|] == '/'
      && (forall k :: 0 <= k < |u| ==> q[k] != '/')
      && q[..|u|] == u && q[|u| + 1..] == a
  {
    var q := u + "/" + a;
    forall k | 0 <= k < |u| ensures q[k] != '/' {
      assert q[k] == u[k];
    }
  }

  /** Storage paths `files/<uid>/<name>` with a slash-free uid determine both parts. */
  lemma ObjectPathInjective(u1: Uid, a1: string, u2: Uid, a2: string)
    requires '/' !in u1 && '/' !in u2
    requires FileObjectPath(u1, a1) == FileObjectPath(u2, a2)
    ensures u1 == u2 && a1 == a2
  {
    var q1, q2 := u1 + "/" + a1, u2 + "/" + a2;
    assert FileObjectPath(u1, a1) == "files/" + q1;
    assert FileObjectPath(u2, a2) == "files/" + q2;
    assert q1 == FileObjectPath(u1, a1)[6..] == q2;
    SplitAtSlash(u1, a1);
    SplitAtSlash(u2, a2);
    assert |u1| == |u2|;
  }

  /** Every stored object sits where an upload puts it: under a slash-free
      uid, named by an upload file id (which always contains '-'). */
  ghost predicate ObjectsFromUploads(c: Cloud) {
    forall p :: p in c.objects ==> exists u, f :: '/' !in u && '-' in f && p == FileObjectPath(u, f)
  }

  /** An object present after some writes was there before or was put by one of them. */
  lemma {:induction false} ApplyObjectsFrom(c: Cloud, writes: seq<Write>, p: string)
    requires p in Apply(c, writes).objects
    ensures p in c.objects || exists k :: 0 <= k < |writes| && writes[k].PutObject? && writes[k].path == p
    decreases |writes|
  {
    if |writes| > 0 {
      var c' := match writes[0]
        case PutObject(q, d) => c.(objects := c.objects[q := d])
        case AddFile(i, rec) => c.(files := c.files[i := rec]);
      ApplyObjectsFrom(c', writes[1..], p);
      if p !in c'.objects {
        var k :| 0 <= k < |writes[1..]| && writes[1..][k].PutObject? && writes[1..][k].path == p;
        assert writes[k + 1] == writes[1..][k];
      }
    }
  }

  /** Uploading keeps that so, for a signed-in user with a slash-free uid. */
  lemma UploadKeepsObjectsFromUploads(s: Subtle, cloud: Cloud, file: File, currentFolder: Option<string>, o: FileOracle)
    requires ObjectsFromUploads(cloud)
    requires o.currentUser.Some? ==> '/' !in o.currentUser.value
    ensures ObjectsFromUploads(Apply(cloud, ProcessFile(s, file, currentFolder, o).writes))
  {
    var one := ProcessFile(s, file, currentFolder, o);
    if |one.writes| > 0 {
      var uid := o.currentUser.value;
      var fid := FileId(o.millis, o.randomPart);
      var path := FileObjectPath(uid, fid);
      assert one.writes[0].path == path;
      var after := Apply(cloud, one.writes);
      forall p | p in after.objects ensures exists u, f :: '/' !in u && '-' in f && p == FileObjectPath(u, f) {
        if p == path {
          assert '/' !in uid && '-' in fid && p == FileObjectPath(uid, fid);
        } else {
          ApplyObjectsFrom(cloud, one.writes, p);
        }
      }
    }
  }

  /** The delete handler as written never finds the object it asks Storage
      to remove: a document id has no '-', an upload file id always has one. */
  lemma DeleteAsWrittenMissesObject(c: Cloud, view: ListView, e: Entry<FileRecord>, o: DeleteOracle)
    requires ObjectsFromUploads(c)
    requires IsAutoId(e.id)
    requires o.confirmed && o.currentUser.Some? && '/' !in o.currentUser.value && o.storageDelete.Pass?
    ensures var path := FileObjectPath(o.currentUser.value, e.id);
      HandleDeleteAsWritten(c, view, FileItem(e), o) == DeleteResult(c, view, Some(DELETE_ALERT_PREFIX + ObjectNotFound(path)))
  {
    var uid := o.currentUser.value;
    var path := FileObjectPath(uid, e.id);
    if path in c.objects {
      var u, f :| '/' !in u && '-' in f && path == FileObjectPath(u, f);
      ObjectPathInjective(uid, e.id, u, f);
      assert false;
    }
  }

  /** The discrepancy on a concrete history: right after a file is uploaded,
      deleting it as written leaves both its object and its document in
      place and shows an alert. */
  lemma UploadThenDeleteAsWritten(s: Subtle, cloud: Cloud, file: File, currentFolder: Option<string>, o: FileOracle,
                                  view: ListView, d: DeleteOracle)
    requires ObjectsFromUploads(cloud)
    requires ProcessFile(s, file, currentFolder, o).failure.None?
    requires o.currentUser.Some? && '/' !in o.currentUser.value && o.docId.Ok? && IsAutoId(o.docId.value)
    requires d.confirmed && d.currentUser == o.currentUser && d.storageDelete.Pass?
    ensures var one := ProcessFile(s, file, currentFolder, o);
      var after := Apply(cloud, one.writes);
      var id := o.docId.value;
      && id in after.files
      && var r := HandleDeleteAsWritten(after, view, FileItem(Entry(id, after.files[id].name, after.files[id])), d);
      && r.cloud == after
      && r.view == view
      && r.alert.Some?
  {
    var one := ProcessFile(s, file, currentFolder, o);
    ProcessFileWrites(s, file, currentFolder, o);
    ProcessFileAddsOnce(s, file, currentFolder, o);
    var after := Apply(cloud, one.writes);
    var id := o.docId.value;
    assert one.writes == [one.writes[0]] + [one.writes[1]];
    ApplyAppend(cloud, [one.writes[0]], [one.writes[1]]);
    assert id in after.files;
    UploadKeepsObjectsFromUploads(s, cloud, file, currentFolder, o);
    DeleteAsWrittenMissesObject(after, view, Entry(id, after.files[id].name, after.files[id]), d);
  }

  /** The corrected handler undoes an upload: deleting the freshly uploaded
      file removes its object and its document, which gives back the
      backend as it was before the upload, and drops its row. */
  lemma UploadThenDelete(s: Subtle, cloud: Cloud, file: File, currentFolder: Option<string>, o: FileOracle,
                         view: ListView, d: DeleteOracle)
    requires ProcessFile(s, file, currentFolder, o).failure.None?
    requires o.docId.Ok? && o.docId.value !in cloud.files
    requires ProcessFile(s, file, currentFolder, o).writes[0].path !in cloud.objects
    requires d.confirmed && d.storageDelete.Pass? && d.docDelete.Pass?
    ensures var one := ProcessFile(s, file, currentFolder, o);
      var after := Apply(cloud, one.writes);
      var id := o.docId.value;
      && id in after.files
      && var r := HandleDelete(after, view, FileItem(Entry(id, after.files[id].name, after.files[id])), d);
      && r.cloud == cloud
      && r.alert.None?
      && (forall k :: 0 <= k < |r.view.files| ==> r.view.files[k].id != id)
      && r.view.folders == view.folders
  {
    var one := ProcessFile(s, file, currentFolder, o);
    ProcessFileWrites(s, file, currentFolder, o);
    ProcessFileAddsOnce(s, file, currentFolder, o);
    var after := Apply(cloud, one.writes);
    var id := o.docId.value;
    var path := one.writes[0].path;
    assert one.writes == [one.writes[0]] + [one.writes[1]];
    ApplyAppend(cloud, [one.writes[0]], [one.writes[1]]);
    assert after.objects == cloud.objects[path := one.writes[0].data];
    assert after.files == cloud.files[id := one.writes[1].record];
    var e := Entry(id, after.files[id].name, after.files[id]);
    assert e.data.encryptedUrl.objectPath == path;
    DeleteFileEffect(after, view, id, path, d);
    var r := HandleDelete(after, view, FileItem(e), d);
    assert r.cloud.objects == cloud.objects;
    assert r.cloud.files == cloud.files;
  }
}
