/** The upload handler (`FileUpload.jsx`, `handleFileChange`): for each
    selected file in turn, generate a key, encrypt, upload the ciphertext to
    Storage, look up its download URL and create the metadata document. The
    first failure ends the batch with an alert.

    A run is described by the events it produces (progress updates and
    completed stages, in order) and by the writes it makes to the backend.
    Everything the environment decides (random draws, clocks, the signed-in
    user, the outcome of every remote call) comes from a `FileOracle`. */
module Upload {
  import opened Results
  import opened WebCrypto
  import opened Backend
  import opened Encryption
  import Text

  const ALERT_PREFIX: string := "Error uploading file: "

  /** What the environment decides while one file is processed. */
  datatype FileOracle = FileOracle(
    keyDraw: Entropy,            // random source behind generateKey
    ivDraw: Entropy,             // random source behind getRandomValues
    encryptedAt: int,            // new Date().getTime() in encryptFile
    millis: nat,                 // Date.now() for the file id
    randomPart: string,          // Math.random().toString(36).substring(2, 15)
    currentUser: Option<Uid>,    // auth.currentUser
    put: Outcome,                // uploadBytes
    urlToken: Result<string>,    // getDownloadURL
    docId: Result<DocId>,        // addDoc
    serverTime: int)             // serverTimestamp()

  /** The steps of one file's pipeline that leave a trace: progress updates
      and completed remote or cryptographic calls. */
  datatype Stage =
    | EncryptionProgress(percent: nat)
    | KeyGenerated
    | FileEncrypted
    | UploadProgress(percent: nat)
    | ObjectUploaded
    | UrlFetched
    | RecordCreated

  /** The order the stages of one file are meant to go through. */
  const PIPELINE: seq<Stage> := [
    EncryptionProgress(10), KeyGenerated, EncryptionProgress(30), FileEncrypted,
    EncryptionProgress(100), UploadProgress(10), ObjectUploaded, UploadProgress(70),
    UrlFetched, UploadProgress(90), RecordCreated, UploadProgress(100)]

  /** A change made to the backend. */
  datatype Write = PutObject(path: string, data: Bytes) | AddFile(id: DocId, record: FileRecord)

  datatype FileRun = FileRun(stages: seq<Stage>, writes: seq<Write>, failure: Option<string>)

  predicate IsPrefix<T(==)>(a: seq<T>, b: seq<T>) {
    |a| <= |b| && b[..|a|] == a
  }

  /** `Date.now().toString() + '-' + randomPart`. */
  function FileId(millis: nat, randomPart: string): (id: string)
    ensures '-' in id
  {
    var digits := Text.NatToString(millis);
    assert (digits + "-" + randomPart)[|digits|] == '-';
    digits + "-" + randomPart
  }

  /** The metadata document `addDoc` receives for an uploaded file. */
  function MetadataRecord(file: File, sealed: Sealed, url: Url, uid: Uid, currentFolder: Option<string>, now: int): FileRecord {
    FileRecord(
      name := file.name,
      originalType := file.mimeType,
      size := |file.content|,
      encryptedSize := |sealed.encryptedFile.content|,
      encryptedUrl := url,
      iv := sealed.iv,
      encryptedKey := sealed.encryptedKey,
      ownerId := uid,
      folderId := FolderOrRoot(currentFolder),
      createdAt := now,
      updatedAt := now,
      isShared := false)
  }

  /** One iteration of the upload loop. Stages are recorded as the code
      reaches them; a failing call ends the run with its error message. */
  function ProcessFile(s: Subtle, file: File, currentFolder: Option<string>, o: FileOracle): (r: FileRun)
    ensures IsPrefix(r.stages, PIPELINE)
    ensures r.failure.None? <==> r.stages == PIPELINE
    ensures |r.writes| <= 2
    ensures |r.stages| > 6 <==> |r.writes| >= 1
    ensures |r.stages| > 10 <==> |r.writes| == 2
  {
    var t0 := [EncryptionProgress(10)];
    assert t0 == PIPELINE[..1];
    match GenerateFileKey(s, o.keyDraw)
    case Err(m) => FileRun(t0, [], Some(m))
    case Ok(key) =>
      var t1 := t0 + [KeyGenerated, EncryptionProgress(30)];
      assert t1 == PIPELINE[..3];
      match EncryptFile(s, file, key, o.ivDraw, o.encryptedAt)
      case Err(m) => FileRun(t1, [], Some(m))
      case Ok(sealed) =>
        var t2 := t1 + [FileEncrypted, EncryptionProgress(100), UploadProgress(10)];
        assert t2 == PIPELINE[..6];
        match o.currentUser
        case None => FileRun(t2, [], Some(NO_USER_ERROR))
        case Some(uid) =>
          var path := FileObjectPath(uid, FileId(o.millis, o.randomPart));
          match o.put
          case Fail(m) => FileRun(t2, [], Some(m))
          case Pass =>
            var w0 := [PutObject(path, sealed.encryptedFile.content)];
            var t3 := t2 + [ObjectUploaded, UploadProgress(70)];
            assert t3 == PIPELINE[..8];
            match o.urlToken
            case Err(m) => FileRun(t3, w0, Some(m))
            case Ok(token) =>
              var url := DownloadUrl(path, token);
              var t4 := t3 + [UrlFetched, UploadProgress(90)];
              assert t4 == PIPELINE[..10];
              match o.docId
              case Err(m) => FileRun(t4, w0, Some(m))
              case Ok(id) =>
                var record := MetadataRecord(file, sealed, url, uid, currentFolder, o.serverTime);
                var t5 := t4 + [RecordCreated, UploadProgress(100)];
                assert t5 == PIPELINE[..12];
                FileRun(t5, w0 + [AddFile(id, record)], None)
  }

  /** What one file writes: first the ciphertext object, then (only once the
      upload and the URL lookup have both succeeded) its metadata record, which
      points at that object and carries the key drawn for this file alone. */
  lemma ProcessFileWrites(s: Subtle, file: File, currentFolder: Option<string>, o: FileOracle)
    ensures var r := ProcessFile(s, file, currentFolder, o);
      && (|r.writes| >= 1 ==> r.writes[0].PutObject?)
      && (|r.writes| == 2 ==>
        && r.writes[1].AddFile?
        && o.docId == Ok(r.writes[1].id)
        && o.currentUser == Some(r.writes[1].record.ownerId)
        && r.writes[1].record.encryptedUrl.objectPath == r.writes[0].path
        && r.writes[1].record.encryptedSize == |r.writes[0].data|
        && r.writes[1].record.name == file.name
        && r.writes[1].record.originalType == file.mimeType
        && r.writes[1].record.size == |file.content|
        && r.writes[1].record.folderId == FolderOrRoot(currentFolder)
        && !r.writes[1].record.isShared
        && NewUint8Array(r.writes[1].record.encryptedKey) == GetRandomValues(32, o.keyDraw))
  {
  }

  /** A file adds at most one document, under the id `addDoc` returned, and
      it does add one when its pipeline completes. */
  lemma ProcessFileAddsOnce(s: Subtle, file: File, currentFolder: Option<string>, o: FileOracle)
    ensures var r := ProcessFile(s, file, currentFolder, o);
      && (forall m :: 0 <= m < |r.writes| && r.writes[m].AddFile? ==> m == 1 && o.docId == Ok(r.writes[m].id))
      && (r.failure.None? ==> |r.writes| == 2 && r.writes[1].AddFile?)
  {
  }

  /** What the handler does, in order. */
  datatype Event =
    | Started                       // isUploading := true, both progress bars at 0
    | Step(file: nat, stage: Stage) // a stage of the file at that index of the selection
    | InputReset                    // the file input is cleared
    | CompletionNotified            // onUploadComplete() is called
    | Alerted(message: string)      // alert(...) after a failure
    | Finished                      // isUploading := false

  /** The stages of file `i`, in the order they occur in `events`. */
  function StagesOf(events: seq<Event>, i: nat): seq<Stage> {
    if |events| == 0 then []
    else
      (if events[0].Step? && events[0].file == i then [events[0].stage] else [])
      + StagesOf(events[1..], i)
  }

  lemma {:induction false} StagesOfAppend(a: seq<Event>, b: seq<Event>, i: nat)
    ensures StagesOf(a + b, i) == StagesOf(a, i) + StagesOf(b, i)
    decreases |a|
  {
    if |a| == 0 {
      assert a + b == b;
    } else {
      assert (a + b)[0] == a[0];
      assert (a + b)[1..] == a[1..] + b;
      StagesOfAppend(a[1..], b, i);
    }
  }

  function Tag(j: nat, stages: seq<Stage>): (es: seq<Event>)
    ensures |es| == |stages|
    ensures forall k :: 0 <= k < |es| ==> es[k] == Step(j, stages[k])
  {
    seq(|stages|, k requires 0 <= k < |stages| => Step(j, stages[k]))
  }

  lemma {:induction false} StagesOfTag(j: nat, stages: seq<Stage>, i: nat)
    ensures StagesOf(Tag(j, stages), i) == if i == j then stages else []
    decreases |stages|
  {
    if |stages| > 0 {
      assert Tag(j, stages)[1..] == Tag(j, stages[1..]);
      StagesOfTag(j, stages[1..], i);
    }
  }

  lemma {:induction false} StagesOfNoSteps(events: seq<Event>, i: nat)
    requires forall k :: 0 <= k < |events| ==> !events[k].Step?
    ensures StagesOf(events, i) == []
    decreases |events|
  {
    if |events| > 0 {
      StagesOfNoSteps(events[1..], i);
    }
  }

  lemma TagStages(j: nat, stages: seq<Stage>)
    ensures forall i: nat :: StagesOf(Tag(j, stages), i) == if i == j then stages else []
  {
    forall i: nat ensures StagesOf(Tag(j, stages), i) == if i == j then stages else [] {
      StagesOfTag(j, stages, i);
    }
  }

  lemma AppendStages(a: seq<Event>, b: seq<Event>)
    ensures forall i: nat :: StagesOf(a + b, i) == StagesOf(a, i) + StagesOf(b, i)
  {
    forall i: nat ensures StagesOf(a + b, i) == StagesOf(a, i) + StagesOf(b, i) {
      StagesOfAppend(a, b, i);
    }
  }

  /** The file at `index` failed with `message`. */
  datatype Failure = Failure(index: nat, message: string)

  datatype BatchRun = BatchRun(events: seq<Event>, writes: seq<Write>, failure: Option<Failure>)

  /** What `ProcessFile` guarantees of every run: the stages are a prefix of
      the pipeline, complete exactly when nothing failed. */
  ghost predicate WellFormedRun(run: FileRun) {
    && IsPrefix(run.stages, PIPELINE)
    && (run.failure.None? <==> run.stages == PIPELINE)
  }

  ghost predicate AllWellFormed(runs: seq<FileRun>) {
    forall i :: 0 <= i < |runs| ==> WellFormedRun(runs[i])
  }

  /** The first `n` files all went through the whole pipeline. */
  ghost predicate AllCompleted(events: seq<Event>, n: nat) {
    forall i :: 0 <= i < n ==> StagesOf(events, i) == PIPELINE
  }

  /** Steps of a later file never come before steps of an earlier one. */
  predicate InFileOrder(events: seq<Event>) {
    forall p, q :: 0 <= p < q < |events| && events[p].Step? && events[q].Step? ==> events[p].file <= events[q].file
  }

  /** Every file's stages, picked out of `events`, follow the pipeline order. */
  ghost predicate FollowsPipeline(events: seq<Event>) {
    forall i: nat :: IsPrefix(StagesOf(events, i), PIPELINE)
  }

  /** The writes of `runs`, in order. */
  function Writes(runs: seq<FileRun>): seq<Write>
    decreases |runs|
  {
    if |runs| == 0 then [] else runs[0].writes + Writes(runs[1..])
  }

  /** The `for` loop from index `from` on, over what each file's iteration
      would do: each file runs to completion before the next starts, and the
      first failure leaves the loop. */
  function Batch(runs: seq<FileRun>, from: nat): (r: BatchRun)
    requires from <= |runs|
    ensures forall k :: 0 <= k < |r.events| ==> r.events[k].Step? && from <= r.events[k].file < |runs|
    ensures r.failure.Some? ==> from <= r.failure.value.index < |runs|
    decreases |runs| - from
  {
    if from == |runs| then BatchRun([], [], None)
    else
      var one := runs[from];
      var head := Tag(from, one.stages);
      if one.failure.Some? then
        BatchRun(head, one.writes, Some(Failure(from, one.failure.value)))
      else
        var rest := Batch(runs, from + 1);
        BatchRun(head + rest.events, one.writes + rest.writes, rest.failure)
  }

  /** Each selected file's iteration of the loop. */
  function FileRuns(s: Subtle, files: seq<File>, currentFolder: Option<string>, oracle: nat -> FileOracle): (runs: seq<FileRun>)
    ensures |runs| == |files|
    ensures AllWellFormed(runs)
  {
    var runs := seq(|files|, i requires 0 <= i < |files| => ProcessFile(s, files[i], currentFolder, oracle(i)));
    assert forall i :: 0 <= i < |runs| ==> runs[i] == ProcessFile(s, files[i], currentFolder, oracle(i));
    runs
  }

  /** Files are processed in index order. */
  lemma {:induction false} BatchInOrder(runs: seq<FileRun>, from: nat)
    requires from <= |runs|
    ensures InFileOrder(Batch(runs, from).events)
    decreases |runs| - from
  {
    var r := Batch(runs, from);
    if from < |runs| && runs[from].failure.None? {
      var head := Tag(from, runs[from].stages);
      var rest := Batch(runs, from + 1);
      BatchInOrder(runs, from + 1);
      assert r.events == head + rest.events;
      forall p, q | 0 <= p < q < |r.events| ensures r.events[p].file <= r.events[q].file {
        if q < |head| {
          assert r.events[p] == head[p] && r.events[q] == head[q];
        } else if p < |head| {
          assert r.events[p] == head[p];
          assert r.events[q] == rest.events[q - |head|];
        } else {
          assert r.events[p] == rest.events[p - |head|];
          assert r.events[q] == rest.events[q - |head|];
        }
      }
    }
  }

  /** Each file's stages, as they occur in the loop's events, follow the pipeline. */
  lemma {:induction false} BatchFollowsPipeline(runs: seq<FileRun>, from: nat)
    requires from <= |runs| && AllWellFormed(runs)
    ensures FollowsPipeline(Batch(runs, from).events)
    decreases |runs| - from
  {
    var r := Batch(runs, from);
    if from == |runs| {
      forall i: nat ensures IsPrefix(StagesOf(r.events, i), PIPELINE) {
        assert StagesOf(r.events, i) == [];
      }
    } else {
      var one := runs[from];
      var head := Tag(from, one.stages);
      TagStages(from, one.stages);
      assert WellFormedRun(one);
      if one.failure.None? {
        BatchFollowsPipeline(runs, from + 1);
        var rest := Batch(runs, from + 1);
        assert r.events == head + rest.events;
        AppendStages(head, rest.events);
        forall i: nat ensures IsPrefix(StagesOf(r.events, i), PIPELINE) {
          if i == from {
            StagesOfAbsent(rest.events, i);
            assert StagesOf(r.events, i) == one.stages + [];
          } else {
            assert StagesOf(r.events, i) == [] + StagesOf(rest.events, i);
          }
        }
      } else {
        assert r.events == head;
      }
    }
  }

  /** The loop reaches no file after the one that failed. */
  lemma {:induction false} BatchStopsAtFailure(runs: seq<FileRun>, from: nat)
    requires from <= |runs|
    ensures var r := Batch(runs, from);
      r.failure.Some? ==>
        && runs[r.failure.value.index].failure == Some(r.failure.value.message)
        && (forall k :: 0 <= k < |r.events| ==> r.events[k].file <= r.failure.value.index)
    decreases |runs| - from
  {
    var r := Batch(runs, from);
    if from < |runs| && runs[from].failure.None? {
      var head := Tag(from, runs[from].stages);
      var rest := Batch(runs, from + 1);
      BatchStopsAtFailure(runs, from + 1);
      assert r.events == head + rest.events;
      if r.failure.Some? {
        forall k | 0 <= k < |r.events| ensures r.events[k].file <= r.failure.value.index {
          if k >= |head| { assert r.events[k] == rest.events[k - |head|]; }
        }
      }
    }
  }

  /** Which files completed: without a failure all of them; after a failure
      those before the failing one, and not the failing one. */
  lemma {:induction false} BatchCompleted(runs: seq<FileRun>, from: nat)
    requires from <= |runs| && AllWellFormed(runs)
    ensures var r := Batch(runs, from);
      && (r.failure.None? ==> forall i :: from <= i < |runs| ==> StagesOf(r.events, i) == PIPELINE)
      && (r.failure.Some? ==>
           && StagesOf(r.events, r.failure.value.index) != PIPELINE
           && (forall i :: from <= i < r.failure.value.index ==> StagesOf(r.events, i) == PIPELINE))
    decreases |runs| - from
  {
    var r := Batch(runs, from);
    if from < |runs| {
      var one := runs[from];
      var head := Tag(from, one.stages);
      TagStages(from, one.stages);
      assert WellFormedRun(one);
      if one.failure.None? {
        var rest := Batch(runs, from + 1);
        BatchCompleted(runs, from + 1);
        assert r.events == head + rest.events;
        AppendStages(head, rest.events);
        StagesOfAbsent(rest.events, from);
        assert StagesOf(r.events, from) == one.stages + [];
        forall i | from < i < |runs| ensures StagesOf(r.events, i) == StagesOf(rest.events, i) {
          assert StagesOf(r.events, i) == [] + StagesOf(rest.events, i);
        }
      } else {
        assert r.events == head;
        assert StagesOf(r.events, from) == one.stages;
      }
    }
  }

  /** The loop reports, for each file, either nothing (it was never reached)
      or exactly the stages its own iteration went through. */
  lemma {:induction false} BatchStagesOf(runs: seq<FileRun>, from: nat, i: nat)
    requires from <= |runs|
    ensures var st := StagesOf(Batch(runs, from).events, i);
      st == [] || (from <= i < |runs| && st == runs[i].stages)
    decreases |runs| - from
  {
    var r := Batch(runs, from);
    if from == |runs| {
      assert r.events == [];
    } else {
      var one := runs[from];
      var head := Tag(from, one.stages);
      StagesOfTag(from, one.stages, i);
      if one.failure.None? {
        var rest := Batch(runs, from + 1);
        BatchStagesOf(runs, from + 1, i);
        assert r.events == head + rest.events;
        StagesOfAppend(head, rest.events, i);
        if i == from {
          StagesOfAbsent(rest.events, i);
        }
      } else {
        assert r.events == head;
      }
    }
  }

  /** The loop makes exactly the writes of the files it reached, in order:
      all of them without a failure, up to and including the failing file's
      otherwise. */
  lemma {:induction false} BatchWrites(runs: seq<FileRun>, from: nat)
    requires from <= |runs|
    ensures var r := Batch(runs, from);
      && (r.failure.None? ==> r.writes == Writes(runs[from..]))
      && (r.failure.Some? ==> r.writes == Writes(runs[from..r.failure.value.index + 1]))
    decreases |runs| - from
  {
    var r := Batch(runs, from);
    if from == |runs| {
      assert runs[from..] == [];
    } else {
      var one := runs[from];
      if one.failure.None? {
        BatchWrites(runs, from + 1);
        var rest := Batch(runs, from + 1);
        assert runs[from..][1..] == runs[from + 1..];
        if r.failure.Some? {
          var j := r.failure.value.index;
          assert runs[from..j + 1][1..] == runs[from + 1..j + 1];
        }
      } else {
        assert runs[from..from + 1][1..] == [];
        assert Writes(runs[from..from + 1]) == one.writes + [];
      }
    }
  }

  /** The loop over the selection, as `handleFileChange` runs it. */
  function RunFiles(s: Subtle, files: seq<File>, currentFolder: Option<string>, oracle: nat -> FileOracle): BatchRun {
    Batch(FileRuns(s, files, currentFolder, oracle), 0)
  }

  /** What the progress display shows. */
  datatype UploadView = UploadView(isUploading: bool, encryptionProgress: nat, uploadProgress: nat)

  /** The view after `events`, each applied as the component's state setter would. */
  function Replay(v: UploadView, events: seq<Event>): UploadView
    decreases |events|
  {
    if |events| == 0 then v
    else
      var last := events[|events| - 1];
      var u := Replay(v, events[..|events| - 1]);
      match last
      case Started => UploadView(true, 0, 0)
      case Step(_, EncryptionProgress(p)) => u.(encryptionProgress := p)
      case Step(_, UploadProgress(p)) => u.(uploadProgress := p)
      case Finished => u.(isUploading := false)
      case _ => u
  }

  /** Events that neither start nor finish a batch leave `isUploading` alone. */
  lemma {:induction false} ReplayKeepsUploading(v: UploadView, events: seq<Event>)
    requires forall k :: 0 <= k < |events| ==> events[k] != Started && events[k] != Finished
    ensures Replay(v, events).isUploading == v.isUploading
    decreases |events|
  {
    if |events| > 0 {
      ReplayKeepsUploading(v, events[..|events| - 1]);
    }
  }

  lemma {:induction false} ReplayAppend(v: UploadView, a: seq<Event>, b: seq<Event>)
    ensures Replay(v, a + b) == Replay(Replay(v, a), b)
    decreases |b|
  {
    if |b| == 0 {
      assert a + b == a;
    } else {
      assert (a + b)[..|a + b| - 1] == a + b[..|b| - 1];
      ReplayAppend(v, a, b[..|b| - 1]);
    }
  }

  lemma {:induction false} StagesOfAbsent(events: seq<Event>, i: nat)
    requires forall k :: 0 <= k < |events| ==> !(events[k].Step? && events[k].file == i)
    ensures StagesOf(events, i) == []
    decreases |events|
  {
    if |events| > 0 {
      StagesOfAbsent(events[1..], i);
    }
  }

  /** After a file fails, no later file of the batch leaves any trace. */
  lemma BatchAborts(runs: seq<FileRun>, i: nat, j: nat)
    requires AllWellFormed(runs)
    requires i < j && StagesOf(Batch(runs, 0).events, i) != PIPELINE
    ensures StagesOf(Batch(runs, 0).events, j) == []
  {
    var r := Batch(runs, 0);
    BatchStopsAtFailure(runs, 0);
    BatchCompleted(runs, 0);
    if r.failure.Some? {
      assert r.failure.value.index <= i;
    } else if i < |runs| {
      assert false;
    }
    StagesOfAbsent(r.events, j);
  }

  /** The frame `handleFileChange` puts around the loop's events: `Started`
      first, `Finished` last, and the loop's steps in between. */
  lemma BatchFacts(view: UploadView, steps: seq<Event>, tail: seq<Event>)
    requires forall k :: 0 <= k < |steps| ==> steps[k].Step?
    requires forall k :: 0 <= k < |tail| ==> !tail[k].Step? && tail[k] != Started && tail[k] != Finished
    ensures var events := [Started] + steps + tail + [Finished];
      && (forall k :: 1 <= k < |events| ==> Replay(view, events[..k]).isUploading)
      && (forall p :: 0 <= p < |events| && events[p].Step? ==> 1 <= p <= |steps| && events[p] == steps[p - 1])
      && (forall i: nat :: StagesOf(events, i) == StagesOf(steps, i))
  {
    var events := [Started] + steps + tail + [Finished];
    forall k | 1 <= k < |events| ensures Replay(view, events[..k]).isUploading {
      var rest := events[1..k];
      assert events[..k] == [Started] + rest;
      forall m | 0 <= m < |rest| ensures rest[m] != Started && rest[m] != Finished {
        assert rest[m] == events[m + 1];
        if m + 1 <= |steps| { assert events[m + 1] == steps[m]; }
        else { assert events[m + 1] == tail[m - |steps|]; }
      }
      ReplayAppend(view, [Started], rest);
      assert Replay(view, [Started]).isUploading by {
        assert [Started][..0] == [];
      }
      ReplayKeepsUploading(Replay(view, [Started]), rest);
    }
    forall i: nat ensures StagesOf(events, i) == StagesOf(steps, i) {
      StagesOfAppend([Started] + steps + tail, [Finished], i);
      StagesOfAppend([Started] + steps, tail, i);
      StagesOfAppend([Started], steps, i);
      StagesOfNoSteps(tail, i);
      StagesOfNoSteps([Finished], i);
      StagesOfNoSteps([Started], i);
    }
  }

  /** Outside the loop's steps, the frame holds `Started`, the epilogue and `Finished`. */
  lemma FrameMembership(steps: seq<Event>, tail: seq<Event>, e: Event)
    requires forall k :: 0 <= k < |steps| ==> steps[k].Step?
    requires !e.Step? && e != Started && e != Finished
    ensures e in [Started] + steps + tail + [Finished] <==> e in tail
  {
    var events := [Started] + steps + tail + [Finished];
    assert forall m :: 1 <= m <= |steps| ==> events[m] == steps[m - 1];
    if e in events {
      var k :| 0 <= k < |events| && events[k] == e;
      if |steps| < k < |events| - 1 {
        assert events[k] == tail[k - 1 - |steps|];
      }
    }
    if e in tail {
      var k :| 0 <= k < |tail| && tail[k] == e;
      assert events[k + 1 + |steps|] == e;
    }
  }

  lemma FrameCount(steps: seq<Event>, tail: seq<Event>, e: Event)
    requires forall k :: 0 <= k < |steps| ==> steps[k].Step?
    requires !e.Step? && e != Started && e != Finished
    ensures Count([Started] + steps + tail + [Finished], e) == Count(tail, e)
  {
    assert multiset([Started] + steps + tail + [Finished]) == multiset([Started]) + multiset(steps) + multiset(tail) + multiset([Finished]);
    assert e !in steps;
  }

  /** Everything in the epilogue comes after every step of the loop. */
  lemma FrameOrder(steps: seq<Event>, tail: seq<Event>)
    requires forall k :: 0 <= k < |steps| ==> steps[k].Step?
    requires forall k :: 0 <= k < |tail| ==> !tail[k].Step?
    ensures var events := [Started] + steps + tail + [Finished];
      forall p, q :: 0 <= p < |events| && 0 <= q < |events| && !events[p].Step? && events[p] != Started && events[q].Step? ==> q < p
  {
    var events := [Started] + steps + tail + [Finished];
    assert forall k :: 1 <= k <= |steps| ==> events[k] == steps[k - 1];
    assert forall k :: |steps| < k < |events| - 1 ==> events[k] == tail[k - 1 - |steps|];
  }

  /** The result of one `handleFileChange`: what happened, the backend afterwards, and the view. */
  datatype UploadResult = UploadResult(events: seq<Event>, cloud: Cloud, view: UploadView)

  /** Apply writes to the backend, in order. */
  function Apply(c: Cloud, writes: seq<Write>): (r: Cloud)
    ensures r.folders == c.folders && r.users == c.users
    decreases |writes|
  {
    if |writes| == 0 then c
    else
      var c' := match writes[0]
        case PutObject(p, d) => c.(objects := c.objects[p := d])
        case AddFile(id, rec) => c.(files := c.files[id := rec]);
      Apply(c', writes[1..])
  }

  function Count(events: seq<Event>, e: Event): nat {
    multiset(events)[e]
  }

  /** What follows the loop: on success the input is cleared and the
      callback, when given, is called; on failure the alert. */
  function Epilogue(run: BatchRun, hasCallback: bool): (tail: seq<Event>)
    ensures forall k :: 0 <= k < |tail| ==> !tail[k].Step? && tail[k] != Started && tail[k] != Finished
    ensures run.failure.None? ==> InputReset in tail && (CompletionNotified in tail <==> hasCallback) && Count(tail, CompletionNotified) <= 1
    ensures run.failure.Some? ==> tail == [Alerted(ALERT_PREFIX + run.failure.value.message)]
  {
    if run.failure.None? then [InputReset] + (if hasCallback then [CompletionNotified] else [])
    else [Alerted(ALERT_PREFIX + run.failure.value.message)]
  }

  /** `handleFileChange`: an empty selection does nothing; otherwise the
      batch runs between `isUploading := true` and `isUploading := false`. */
  function HandleFileChange(s: Subtle, files: seq<File>, currentFolder: Option<string>, oracle: nat -> FileOracle,
                            hasCallback: bool, view: UploadView, cloud: Cloud): (r: UploadResult)
    ensures |files| == 0 ==> r == UploadResult([], cloud, view)
    ensures |files| > 0 ==>
      && |r.events| >= 2
      && r.events[0] == Started
      && r.events[|r.events| - 1] == Finished
      && !r.view.isUploading
      && (forall k :: 1 <= k < |r.events| ==> Replay(view, r.events[..k]).isUploading)
    ensures r.cloud.folders == cloud.folders && r.cloud.users == cloud.users
  {
    if |files| == 0 then UploadResult([], cloud, view)
    else
      var run := RunFiles(s, files, currentFolder, oracle);
      var tail := Epilogue(run, hasCallback);
      var events := [Started] + run.events + tail + [Finished];
      BatchFacts(view, run.events, tail);
      UploadResult(events, Apply(cloud, run.writes), Replay(view, events))
  }

  /** Within one `handleFileChange`, files are handled one after the other,
      each file's stages in pipeline order, and once a file falls short of
      the pipeline no later file starts. */
  lemma UploadOrder(s: Subtle, files: seq<File>, currentFolder: Option<string>, oracle: nat -> FileOracle,
                    hasCallback: bool, view: UploadView, cloud: Cloud)
    ensures var r := HandleFileChange(s, files, currentFolder, oracle, hasCallback, view, cloud);
      && InFileOrder(r.events)
      && FollowsPipeline(r.events)
      && (forall i, j :: 0 <= i < j && StagesOf(r.events, i) != PIPELINE ==> StagesOf(r.events, j) == [])
  {
    var r := HandleFileChange(s, files, currentFolder, oracle, hasCallback, view, cloud);
    if |files| > 0 {
      var runs := FileRuns(s, files, currentFolder, oracle);
      var run := Batch(runs, 0);
      var tail := Epilogue(run, hasCallback);
      BatchFacts(view, run.events, tail);
      BatchInOrder(runs, 0);
      BatchFollowsPipeline(runs, 0);
      assert r.events == [Started] + run.events + tail + [Finished];
      forall i, j | 0 <= i < j && StagesOf(r.events, i) != PIPELINE ensures StagesOf(r.events, j) == [] {
        assert StagesOf(r.events, i) == StagesOf(run.events, i);
        BatchAborts(runs, i, j);
        assert StagesOf(r.events, j) == StagesOf(run.events, j);
      }
      forall p, q | 0 <= p < q < |r.events| && r.events[p].Step? && r.events[q].Step?
        ensures r.events[p].file <= r.events[q].file
      {
        assert r.events[p] == run.events[p - 1] && r.events[q] == run.events[q - 1];
      }
    } else {
      forall i: nat ensures IsPrefix(StagesOf(r.events, i), PIPELINE) {
        assert StagesOf(r.events, i) == [];
      }
    }
  }

  /** The input is cleared, and the callback (when given) called, exactly
      when every selected file completed the pipeline. */
  lemma UploadSucceeds(s: Subtle, files: seq<File>, currentFolder: Option<string>, oracle: nat -> FileOracle,
                       hasCallback: bool, view: UploadView, cloud: Cloud)
    ensures var r := HandleFileChange(s, files, currentFolder, oracle, hasCallback, view, cloud);
      && (InputReset in r.events <==> |files| > 0 && AllCompleted(r.events, |files|))
      && (CompletionNotified in r.events <==> |files| > 0 && AllCompleted(r.events, |files|) && hasCallback)
  {
    var r := HandleFileChange(s, files, currentFolder, oracle, hasCallback, view, cloud);
    if |files| > 0 {
      var runs := FileRuns(s, files, currentFolder, oracle);
      var run := Batch(runs, 0);
      var tail := Epilogue(run, hasCallback);
      assert r.events == [Started] + run.events + tail + [Finished];
      BatchFacts(view, run.events, tail);
      BatchCompleted(runs, 0);
      FrameMembership(run.events, tail, InputReset);
      FrameMembership(run.events, tail, CompletionNotified);
      if run.failure.Some? {
        var f := run.failure.value.index;
        assert StagesOf(r.events, f) == StagesOf(run.events, f);
        assert InputReset !in tail && CompletionNotified !in tail;
      } else {
        forall i | 0 <= i < |files| ensures StagesOf(r.events, i) == PIPELINE {
          assert StagesOf(r.events, i) == StagesOf(run.events, i);
        }
      }
    }
  }

  /** The callback runs at most once, and only after every step of the batch. */
  lemma UploadNotifiesLast(s: Subtle, files: seq<File>, currentFolder: Option<string>, oracle: nat -> FileOracle,
                           hasCallback: bool, view: UploadView, cloud: Cloud)
    ensures var r := HandleFileChange(s, files, currentFolder, oracle, hasCallback, view, cloud);
      && Count(r.events, CompletionNotified) <= 1
      && (forall p, q :: 0 <= p < |r.events| && 0 <= q < |r.events| && r.events[p] == CompletionNotified && r.events[q].Step? ==> q < p)
  {
    var r := HandleFileChange(s, files, currentFolder, oracle, hasCallback, view, cloud);
    if |files| > 0 {
      var runs := FileRuns(s, files, currentFolder, oracle);
      var run := Batch(runs, 0);
      var tail := Epilogue(run, hasCallback);
      var events := [Started] + run.events + tail + [Finished];
      assert r.events == events;
      FrameCount(run.events, tail, CompletionNotified);
      FrameOrder(run.events, tail);
    }
  }

  /** A failure shows one alert, carrying the failing file's own error after the fixed prefix. */
  lemma UploadAlerts(s: Subtle, files: seq<File>, currentFolder: Option<string>, oracle: nat -> FileOracle,
                     hasCallback: bool, view: UploadView, cloud: Cloud)
    ensures var r := HandleFileChange(s, files, currentFolder, oracle, hasCallback, view, cloud);
      forall m :: Alerted(m) in r.events ==>
        && |ALERT_PREFIX| <= |m| && m[..|ALERT_PREFIX|] == ALERT_PREFIX
        && exists i :: 0 <= i < |files| && ProcessFile(s, files[i], currentFolder, oracle(i)).failure == Some(m[|ALERT_PREFIX|..])
  {
    var r := HandleFileChange(s, files, currentFolder, oracle, hasCallback, view, cloud);
    if |files| > 0 {
      var runs := FileRuns(s, files, currentFolder, oracle);
      var run := Batch(runs, 0);
      var tail := Epilogue(run, hasCallback);
      assert r.events == [Started] + run.events + tail + [Finished];
      forall m | Alerted(m) in r.events
        ensures |ALERT_PREFIX| <= |m| && m[..|ALERT_PREFIX|] == ALERT_PREFIX
        ensures exists i :: 0 <= i < |files| && ProcessFile(s, files[i], currentFolder, oracle(i)).failure == Some(m[|ALERT_PREFIX|..])
      {
        AlertFromFailure(runs, hasCallback, m);
        var i :| 0 <= i < |runs| && runs[i].failure == Some(m[|ALERT_PREFIX|..]);
        assert runs[i] == ProcessFile(s, files[i], currentFolder, oracle(i));
      }
    }
  }

  /** An alert around a batch names the failure of one of its runs. */
  lemma {:induction false} AlertFromFailure(runs: seq<FileRun>, hasCallback: bool, m: string)
    requires Alerted(m) in [Started] + Batch(runs, 0).events + Epilogue(Batch(runs, 0), hasCallback) + [Finished]
    ensures |ALERT_PREFIX| <= |m| && m[..|ALERT_PREFIX|] == ALERT_PREFIX
    ensures exists i :: 0 <= i < |runs| && runs[i].failure == Some(m[|ALERT_PREFIX|..])
  {
    var run := Batch(runs, 0);
    var tail := Epilogue(run, hasCallback);
    BatchStopsAtFailure(runs, 0);
    FrameMembership(run.events, tail, Alerted(m));
    assert run.failure.Some?;
    var f := run.failure.value;
    assert m == ALERT_PREFIX + f.message;
    assert m[|ALERT_PREFIX|..] == f.message;
    assert runs[f.index].failure == Some(m[|ALERT_PREFIX|..]);
  }

  lemma {:induction false} ApplyAppend(c: Cloud, a: seq<Write>, b: seq<Write>)
    ensures Apply(c, a + b) == Apply(Apply(c, a), b)
    decreases |a|
  {
    if |a| == 0 {
      assert a + b == b;
    } else {
      assert (a + b)[0] == a[0];
      assert (a + b)[1..] == a[1..] + b;
      var c' := match a[0]
        case PutObject(p, d) => c.(objects := c.objects[p := d])
        case AddFile(id, rec) => c.(files := c.files[id := rec]);
      ApplyAppend(c', a[1..], b);
    }
  }

  /** Writes that add no document with this id leave that document as it was. */
  lemma {:induction false} ApplyKeepsFile(c: Cloud, writes: seq<Write>, id: DocId)
    requires forall k :: 0 <= k < |writes| && writes[k].AddFile? ==> writes[k].id != id
    ensures id in Apply(c, writes).files <==> id in c.files
    ensures id in c.files ==> Apply(c, writes).files[id] == c.files[id]
    decreases |writes|
  {
    if |writes| > 0 {
      var c' := match writes[0]
        case PutObject(p, d) => c.(objects := c.objects[p := d])
        case AddFile(i, rec) => c.(files := c.files[i := rec]);
      ApplyKeepsFile(c', writes[1..], id);
    }
  }

  lemma {:induction false} WritesAppend(a: seq<FileRun>, b: seq<FileRun>)
    ensures Writes(a + b) == Writes(a) + Writes(b)
    decreases |a|
  {
    if |a| == 0 {
      assert a + b == b;
    } else {
      assert (a + b)[1..] == a[1..] + b;
      WritesAppend(a[1..], b);
    }
  }

  /** Every write of `runs` is a write of one of them. */
  lemma {:induction false} WritesFrom(runs: seq<FileRun>, k: nat)
    requires k < |Writes(runs)|
    ensures exists j, m :: 0 <= j < |runs| && 0 <= m < |runs[j].writes| && Writes(runs)[k] == runs[j].writes[m]
    decreases |runs|
  {
    if k < |runs[0].writes| {
      assert Writes(runs)[k] == runs[0].writes[k];
    } else {
      var k' := k - |runs[0].writes|;
      assert Writes(runs)[k] == Writes(runs[1..])[k'];
      WritesFrom(runs[1..], k');
      var j, m :| 0 <= j < |runs[1..]| && 0 <= m < |runs[1..][j].writes| && Writes(runs[1..])[k'] == runs[1..][j].writes[m];
      assert runs[1..][j] == runs[j + 1];
    }
  }

  /** The ids `addDoc` hands out to the files of one selection are pairwise distinct. */
  ghost predicate DistinctDocIds(oracle: nat -> FileOracle, n: nat) {
    forall i, j :: 0 <= i < j < n && oracle(i).docId.Ok? && oracle(j).docId.Ok? ==> oracle(i).docId != oracle(j).docId
  }

  /** A document added by one run survives the runs after it when none of
      their writes adds a document with the same id. */
  lemma ApplyRunsKeep(c: Cloud, pre: seq<FileRun>, one: FileRun, post: seq<FileRun>, id: DocId, rec: FileRecord)
    requires |one.writes| > 0 && one.writes[|one.writes| - 1] == AddFile(id, rec)
    requires forall j, m :: 0 <= j < |post| && 0 <= m < |post[j].writes| && post[j].writes[m].AddFile? ==> post[j].writes[m].id != id
    ensures var after := Apply(c, Writes(pre + [one] + post));
      id in after.files && after.files[id] == rec
  {
    WritesAppend(pre + [one], post);
    WritesAppend(pre, [one]);
    assert Writes([one]) == one.writes + [];
    var n := |one.writes| - 1;
    assert one.writes == one.writes[..n] + [AddFile(id, rec)];
    ApplyAppend(c, Writes(pre) + one.writes, Writes(post));
    ApplyAppend(c, Writes(pre), one.writes);
    var before := Apply(c, Writes(pre));
    ApplyAppend(before, one.writes[..n], [AddFile(id, rec)]);
    var mid := Apply(before, one.writes);
    var almost := Apply(before, one.writes[..n]);
    assert Apply(almost, [AddFile(id, rec)]) == Apply(almost.(files := almost.files[id := rec]), []);
    assert id in mid.files && mid.files[id] == rec;
    forall k | 0 <= k < |Writes(post)| && Writes(post)[k].AddFile? ensures Writes(post)[k].id != id {
      WritesFrom(post, k);
    }
    ApplyKeepsFile(mid, Writes(post), id);
    assert Writes(pre + [one] + post) == Writes(pre) + one.writes + Writes(post);
  }

  /** At the level of the loop: a completed file's document is stored when no
      later file's writes reuse its id. */
  lemma BatchPersists(c: Cloud, runs: seq<FileRun>, i: nat, id: DocId, rec: FileRecord)
    requires AllWellFormed(runs) && i < |runs|
    requires StagesOf(Batch(runs, 0).events, i) == PIPELINE
    requires |runs[i].writes| > 0 && runs[i].writes[|runs[i].writes| - 1] == AddFile(id, rec)
    requires forall j, m :: i < j < |runs| && 0 <= m < |runs[j].writes| && runs[j].writes[m].AddFile? ==> runs[j].writes[m].id != id
    ensures var after := Apply(c, Batch(runs, 0).writes);
      id in after.files && after.files[id] == rec
  {
    var run := Batch(runs, 0);
    BatchStopsAtFailure(runs, 0);
    BatchWrites(runs, 0);
    var stop := if run.failure.Some? then run.failure.value.index + 1 else |runs|;
    if run.failure.Some? && run.failure.value.index < i {
      StagesOfAbsent(run.events, i);
      assert false;
    }
    assert i < stop;
    assert run.writes == Writes(runs[..stop]) by {
      assert runs[0..] == runs[..|runs|];
    }
    var pre, post := runs[..i], runs[i + 1..stop];
    assert runs[..stop] == pre + [runs[i]] + post;
    forall j, m | 0 <= j < |post| && 0 <= m < |post[j].writes| && post[j].writes[m].AddFile? ensures post[j].writes[m].id != id {
      assert post[j] == runs[i + 1 + j];
    }
    ApplyRunsKeep(c, pre, runs[i], post, id, rec);
  }

  /** After `handleFileChange`, every file that completed the pipeline has its
      metadata document in `files`, under the id `addDoc` returned, with the
      record built for it. */
  lemma UploadPersists(s: Subtle, files: seq<File>, currentFolder: Option<string>, oracle: nat -> FileOracle,
                       hasCallback: bool, view: UploadView, cloud: Cloud, i: nat)
    requires DistinctDocIds(oracle, |files|)
    requires i < |files|
    ensures var r := HandleFileChange(s, files, currentFolder, oracle, hasCallback, view, cloud);
      var one := ProcessFile(s, files[i], currentFolder, oracle(i));
      StagesOf(r.events, i) == PIPELINE ==>
        && oracle(i).docId.Ok?
        && |one.writes| == 2
        && oracle(i).docId.value in r.cloud.files
        && r.cloud.files[oracle(i).docId.value] == one.writes[1].record
  {
    var r := HandleFileChange(s, files, currentFolder, oracle, hasCallback, view, cloud);
    var runs := FileRuns(s, files, currentFolder, oracle);
    var run := Batch(runs, 0);
    var one := runs[i];
    if StagesOf(r.events, i) == PIPELINE {
      var tail := Epilogue(run, hasCallback);
      assert r.events == [Started] + run.events + tail + [Finished];
      BatchFacts(view, run.events, tail);
      assert StagesOf(run.events, i) == PIPELINE;
      BatchStagesOf(runs, 0, i);
      assert WellFormedRun(one);
      ProcessFileAddsOnce(s, files[i], currentFolder, oracle(i));
      var id := oracle(i).docId.value;
      forall j, m | i < j < |runs| && 0 <= m < |runs[j].writes| && runs[j].writes[m].AddFile? ensures runs[j].writes[m].id != id {
        ProcessFileAddsOnce(s, files[j], currentFolder, oracle(j));
      }
      BatchPersists(cloud, runs, i, id, one.writes[1].record);
    }
  }

  /** The percentages one kind of progress bar is set to, in order:
      encryption progress, or upload progress when `upload` holds. */
  function Percents(stages: seq<Stage>, upload: bool): (r: seq<nat>)
    ensures |r| <= |stages|
    decreases |stages|
  {
    if |stages| == 0 then []
    else
      var here := match stages[0]
        case EncryptionProgress(p) => if upload then [] else [p]
        case UploadProgress(p) => if upload then [p] else []
        case _ => [];
      here + Percents(stages[1..], upload)
  }

  predicate NonDecreasing(s: seq<nat>) {
    forall i, j :: 0 <= i <= j < |s| ==> s[i] <= s[j]
  }

  lemma {:induction false} PercentsPrefix(a: seq<Stage>, b: seq<Stage>, upload: bool)
    requires IsPrefix(a, b)
    ensures IsPrefix(Percents(a, upload), Percents(b, upload))
    decreases |a|
  {
    if |a| > 0 {
      assert a[0] == b[0];
      assert a[1..] == b[1..][..|a| - 1];
      PercentsPrefix(a[1..], b[1..], upload);
      var h := Percents([a[0]], upload);
      assert Percents(a, upload) == h + Percents(a[1..], upload) by { PercentsCons(a[0], a[1..], upload); assert [a[0]] + a[1..] == a; }
      assert Percents(b, upload) == h + Percents(b[1..], upload) by { PercentsCons(b[0], b[1..], upload); assert [b[0]] + b[1..] == b; }
      PrefixAfter(h, Percents(a[1..], upload), Percents(b[1..], upload));
    }
  }

  lemma PrefixAfter<T>(h: seq<T>, x: seq<T>, y: seq<T>)
    requires IsPrefix(x, y)
    ensures IsPrefix(h + x, h + y)
  {
    assert (h + y)[..|h + x|] == h + y[..|x|];
  }

  /** `Percents` of a stage followed by more stages. */
  lemma PercentsCons(x: Stage, rest: seq<Stage>, upload: bool)
    ensures Percents([x] + rest, upload) == Percents([x], upload) + Percents(rest, upload)
  {
    assert ([x] + rest)[1..] == rest;
    assert [x][1..] == [];
  }

  /** The pipeline sets encryption progress to 10, 30, 100 and upload progress to 10, 70, 90, 100. */
  lemma PipelinePercents()
    ensures Percents(PIPELINE, false) == [10, 30, 100]
    ensures Percents(PIPELINE, true) == [10, 70, 90, 100]
  {
    EncryptionPercents(PIPELINE);
    UploadPercents(PIPELINE);
  }

  /** The encryption bar along stages laid out as the pipeline. */
  lemma EncryptionPercents(p: seq<Stage>)
    requires |p| == 12
    requires p[0] == EncryptionProgress(10) && p[1] == KeyGenerated && p[2] == EncryptionProgress(30)
    requires p[3] == FileEncrypted && p[4] == EncryptionProgress(100) && p[5] == UploadProgress(10)
    requires p[6] == ObjectUploaded && p[7] == UploadProgress(70) && p[8] == UrlFetched
    requires p[9] == UploadProgress(90) && p[10] == RecordCreated && p[11] == UploadProgress(100)
    ensures Percents(p, false) == [10, 30, 100]
  {
    assert Percents(p[11..], false) == [] by { assert p[11..][1..] == p[12..]; }
    assert Percents(p[10..], false) == [] by { assert p[10..][1..] == p[11..]; }
    assert Percents(p[9..], false) == [] by { assert p[9..][1..] == p[10..]; }
    assert Percents(p[8..], false) == [] by { assert p[8..][1..] == p[9..]; }
    assert Percents(p[7..], false) == [] by { assert p[7..][1..] == p[8..]; }
    assert Percents(p[6..], false) == [] by { assert p[6..][1..] == p[7..]; }
    assert Percents(p[5..], false) == [] by { assert p[5..][1..] == p[6..]; }
    assert Percents(p[4..], false) == [100] by { assert p[4..][1..] == p[5..]; }
    assert Percents(p[3..], false) == [100] by { assert p[3..][1..] == p[4..]; }
    assert Percents(p[2..], false) == [30, 100] by { assert p[2..][1..] == p[3..]; }
    assert Percents(p[1..], false) == [30, 100] by { assert p[1..][1..] == p[2..]; }
    assert Percents(p[0..], false) == [10, 30, 100] by { assert p[0..][1..] == p[1..]; }
    assert p[0..] == p;
  }

  /** The upload bar along stages laid out as the pipeline. */
  lemma UploadPercents(p: seq<Stage>)
    requires |p| == 12
    requires p[0] == EncryptionProgress(10) && p[1] == KeyGenerated && p[2] == EncryptionProgress(30)
    requires p[3] == FileEncrypted && p[4] == EncryptionProgress(100) && p[5] == UploadProgress(10)
    requires p[6] == ObjectUploaded && p[7] == UploadProgress(70) && p[8] == UrlFetched
    requires p[9] == UploadProgress(90) && p[10] == RecordCreated && p[11] == UploadProgress(100)
    ensures Percents(p, true) == [10, 70, 90, 100]
  {
    assert Percents(p[11..], true) == [100] by { assert p[11..][1..] == p[12..]; }
    assert Percents(p[10..], true) == [100] by { assert p[10..][1..] == p[11..]; }
    assert Percents(p[9..], true) == [90, 100] by { assert p[9..][1..] == p[10..]; }
    assert Percents(p[8..], true) == [90, 100] by { assert p[8..][1..] == p[9..]; }
    assert Percents(p[7..], true) == [70, 90, 100] by { assert p[7..][1..] == p[8..]; }
    assert Percents(p[6..], true) == [70, 90, 100] by { assert p[6..][1..] == p[7..]; }
    assert Percents(p[5..], true) == [10, 70, 90, 100] by { assert p[5..][1..] == p[6..]; }
    assert Percents(p[4..], true) == [10, 70, 90, 100] by { assert p[4..][1..] == p[5..]; }
    assert Percents(p[3..], true) == [10, 70, 90, 100] by { assert p[3..][1..] == p[4..]; }
    assert Percents(p[2..], true) == [10, 70, 90, 100] by { assert p[2..][1..] == p[3..]; }
    assert Percents(p[1..], true) == [10, 70, 90, 100] by { assert p[1..][1..] == p[2..]; }
    assert Percents(p[0..], true) == [10, 70, 90, 100] by { assert p[0..][1..] == p[1..]; }
    assert p[0..] == p;
  }

  lemma PipelineNonDecreasing()
    ensures NonDecreasing(Percents(PIPELINE, false)) && NonDecreasing(Percents(PIPELINE, true))
  {
    PipelinePercents();
    PercentListsNonDecreasing(Percents(PIPELINE, false));
    PercentListsNonDecreasing(Percents(PIPELINE, true));
  }

  lemma PercentListsNonDecreasing(e: seq<nat>)
    requires e == [10, 30, 100] || e == [10, 70, 90, 100]
    ensures NonDecreasing(e)
  {
  }

  /** Along any prefix of the pipeline, neither bar ever goes back. */
  lemma ProgressNonDecreasing(stages: seq<Stage>)
    requires IsPrefix(stages, PIPELINE)
    ensures NonDecreasing(Percents(stages, false)) && NonDecreasing(Percents(stages, true))
  {
    PipelineNonDecreasing();
    PrefixKeepsOrder(stages, PIPELINE, false);
    PrefixKeepsOrder(stages, PIPELINE, true);
  }

  lemma PrefixKeepsOrder(stages: seq<Stage>, full: seq<Stage>, upload: bool)
    requires IsPrefix(stages, full) && NonDecreasing(Percents(full, upload))
    ensures NonDecreasing(Percents(stages, upload))
  {
    PercentsPrefix(stages, full, upload);
    NonDecreasingPrefix(Percents(stages, upload), Percents(full, upload));
  }

  lemma NonDecreasingPrefix(a: seq<nat>, b: seq<nat>)
    requires IsPrefix(a, b) && NonDecreasing(b)
    ensures NonDecreasing(a)
  {
    forall i, j | 0 <= i <= j < |a| ensures a[i] <= a[j] {
      assert a[i] == b[i] && a[j] == b[j];
    }
  }

  /** In every `handleFileChange`, each file's encryption and upload
      progress only go up, and a file that completed ends at 100 on both. */
  lemma UploadProgressMonotone(s: Subtle, files: seq<File>, currentFolder: Option<string>, oracle: nat -> FileOracle,
                               hasCallback: bool, view: UploadView, cloud: Cloud, i: nat)
    ensures var st := StagesOf(HandleFileChange(s, files, currentFolder, oracle, hasCallback, view, cloud).events, i);
      && NonDecreasing(Percents(st, false))
      && NonDecreasing(Percents(st, true))
      && (st == PIPELINE ==> Percents(st, false) == [10, 30, 100] && Percents(st, true) == [10, 70, 90, 100])
  {
    UploadOrder(s, files, currentFolder, oracle, hasCallback, view, cloud);
    var st := StagesOf(HandleFileChange(s, files, currentFolder, oracle, hasCallback, view, cloud).events, i);
    ProgressNonDecreasing(st);
    PipelinePercents();
  }
}
