# SafeStreamX client core in Dafny

SafeStreamX is a React single-page application over Firebase. Files are
encrypted in the browser before they are stored. This project models the
client logic of that application and proves properties of it:

- **Per-file encryption** (`util/encryption.js`). Each file gets a fresh
  extractable AES-GCM-256 key and a 12-byte IV. The ciphertext is packaged as
  a new `File` of type `application/encrypted`. The IV and the raw key are
  stored as plain number arrays, and the inverse operations are used on
  download.
- **Upload** (`FileUpload.jsx`). The batch loop runs a strict per-file
  pipeline: key, encrypt, Storage put, download URL, metadata document. It
  tracks progress, aborts at the first failure, and notifies its caller at
  the end.
- **File browser** (`FileList.jsx`):
  - the two Firestore listing queries (owner and folder filter, ordered by
    name);
  - download and decryption;
  - deletion of files and folders;
  - row selection;
  - the choice of a file's icon.
- **Dashboard navigation** (`Dashboard.jsx`). The breadcrumb trail, the
  quick-access cards, the create-folder dialog flag and the refresh counter.
- **Folder creation** (`CreateFolderModal.jsx`). Name validation and the
  folder document.
- **Profile completion** (`CompleteProfile.jsx`). Three steps:
  1. the name, the optional picture, the Auth profile and the user document;
  2. the phone number and the SMS code;
  3. the six-digit code, the five-minute countdown and resend.
  The phone steps are modelled twice: as written, where they always fail
  (see Findings), and as meant.
- **Sign-in** (`Login.jsx`). Routing a signed-in user by the stored
  `phoneVerified` flag, the popup/redirect choice, and the error-code
  messages.
- **Routing** (`App.jsx`). The route table and the `ProtectedRoute` guard.

The backend is a value, not a service. `Backend.Cloud` holds the `files`,
`folders` and `users` collections and the Storage bucket as maps, and every
remote call is an update of one of them or a lookup in one.

Everything the environment decides is an input to the operation (an "oracle"
datatype per handler):

- random draws;
- clocks and `serverTimestamp()`;
- the signed-in user;
- the answer of each remote call, success or the SDK's error message.

AES-GCM is not modelled. A `WebCrypto.Subtle` value carries the seal and open
transforms as function values, and the ghost predicate `WebCrypto.IsAead`
states the one property assumed of them: what was sealed opens again under
the same key and IV. It appears as a precondition of the round-trip lemmas.
The rest of the W3C Web Cryptography API rules the code relies on are
modelled as that standard states them. In particular, raw AES import accepts
128-, 192- and 256-bit keys.

Each React handler is one pure transition from the component's state and the
backend to the new state, the backend writes and the user-visible effects
(navigation, alerts, callbacks). The upload handler also returns the ordered
trace of what it did.

Modules:

| module | file |
|---|---|
| `Results` | `results.dfy` |
| `Text` | `text.dfy` |
| `WebCrypto` | `webcrypto.dfy` |
| `Encryption` | `encryption.dfy` |
| `Backend` | `backend.dfy` |
| `Upload` | `upload.dfy` |
| `Listing` | `listing.dfy` |
| `FileList` | `filelist.dfy` |
| `RoundTrip` | `roundtrip.dfy` |
| `Dashboard` | `dashboard.dfy` |
| `CreateFolder` | `createfolder.dfy` |
| `Profile` | `profile.dfy` |
| `Login` | `login.dfy` |
| `App` | `app.dfy` |

`RoundTrip` connects the upload to the file browser.

Behaviour of the code as written that the model makes explicit:

- **A top-level folder's `path` is `root/<name>`.** The dashboard always
  passes its current folder to the dialog, and that folder starts as
  `'root'`, so the branch for a missing parent is never taken from the
  dashboard (`CreateFolder.TopLevelPath`).
- **Clicking the same file row twice does not always restore the
  selection.** It restores it when that row, or no row, was expanded. When
  another row was expanded, none is left expanded (`FileList.ClickTwice`).
- **A popup's error code is never shown.** Any popup failure falls back to
  the redirect, and only a failing redirect reaches the message mapping
  (`Login.PopupCodeNeverShown`). So the "cancelled" message appears only if
  the redirect reports `auth/cancelled-popup-request`.
- **Success leaves old error messages on screen.** A successful "Next" in
  profile completion and a successful listing fetch both leave an earlier
  error line in place (`Profile.NextStep`, `FileList.FetchItems`).
- **`importEncryptionKey` accepts any AES key size.** It performs no length
  check of its own, so a 16-byte stored key imports as an AES-128 key
  (`Encryption.ImportAcceptsShortKey`).
- **Stored key and IV numbers are wrapped, not rejected.** Numbers outside
  0..255 are reduced modulo 256 by the `Uint8Array` conversion
  (`Encryption.NumberArrayWraps`).

## Model

| member | source | states |
|---|---|---|
| WebCrypto.GetRandomValues | safestreamx/src/util/encryption.js:34 | the IV buffer has exactly the requested length and holds the random source's bytes in order |
| WebCrypto.NewUint8Array | safestreamx/src/util/encryption.js:79 | converting a number array keeps its length and reduces every element modulo 256 |
| WebCrypto.ArrayFrom | safestreamx/src/util/encryption.js:58-59 | exporting bytes as plain numbers gives values in 0..255 that convert back to exactly the same bytes |
| WebCrypto.AsUint8Array | safestreamx/src/util/encryption.js:108 | a `Uint8Array` passes through unchanged; a plain number array becomes `new Uint8Array(numbers)`, each element reduced modulo 256 |
| Encryption.GenerateFileKey | safestreamx/src/util/encryption.js:12-23 | the key is extractable AES-GCM with 256 bits for encrypt and decrypt; it fails, with the fixed message, exactly when the platform rejects |
| Encryption.EncryptFile | safestreamx/src/util/encryption.js:31-65 | success iff the cipher accepts and the key is extractable; a 12-byte IV that is the one used; ciphertext of the whole file under that IV and key; same name, type `application/encrypted`; the stored key is the key's raw bytes; otherwise the fixed message |
| Encryption.DecryptFile | safestreamx/src/util/encryption.js:76-98 | success iff decryption under the converted IV succeeds; the plaintext is labelled with the caller's name and type only; otherwise the fixed message |
| Encryption.ImportEncryptionKey | safestreamx/src/util/encryption.js:105-121 | the imported key carries exactly the given bytes; success iff their length is an AES length; the key is extractable AES-GCM for encrypt and decrypt |
| Encryption.SealThenOpen | safestreamx/src/util/encryption.js:31-98 | under the AEAD assumption, decrypting `encryptFile`'s output with its returned IV, in either array form, gives back the original bytes with the caller's name and type |
| Encryption.ExportThenImport | safestreamx/src/util/encryption.js:54-121 | the stored `encryptedKey` array, in either form, imports back to exactly the generated key |
| Encryption.ImportAcceptsShortKey | safestreamx/src/util/encryption.js:110-116 | 16 raw bytes import successfully, as a 128-bit key |
| Encryption.NumberArrayWraps | safestreamx/src/util/encryption.js:108 | a stored number outside 0..255 is wrapped into a byte, not rejected |
| Text.Trim | safestreamx/src/components/dashboards/CreateFolderModal.jsx:17 | the result starts and ends with no whitespace, and it is empty iff the input is blank |
| Text.TrimIsInfix | safestreamx/src/components/dashboards/CreateFolderModal.jsx:30 | trimming removes only whitespace, at the two ends, and keeps a contiguous infix |
| Text.TrimIdempotent | safestreamx/src/components/dashboards/CreateFolderModal.jsx:30 | trimming twice is trimming once |
| Text.Contains | safestreamx/src/components/dashboards/FileList.jsx:165 | `includes` holds iff the pattern occurs at some index |
| Text.StripNonDigits | safestreamx/src/components/logins/CompleteProfile.jsx:174 | the result is made only of ASCII digits and is no longer than the input |
| Text.StripNonDigitsAppend | safestreamx/src/components/logins/CompleteProfile.jsx:174 | stripping distributes over concatenation |
| Text.StripNonDigitsKeepsDigits | safestreamx/src/components/logins/CompleteProfile.jsx:174 | an all-digit string is unchanged, so stripping is idempotent |
| Text.StripNonDigitsOne | safestreamx/src/components/logins/CompleteProfile.jsx:174 | a single digit is kept and any other character is dropped; with the append law this determines the result for every string |
| Text.NatToString | safestreamx/src/components/logins/CompleteProfile.jsx:465 | the decimal string is all digits, has no leading zero, denotes the number, and is one character iff the number is below 10 |
| Text.PadStart2 | safestreamx/src/components/logins/CompleteProfile.jsx:465 | a string of length 2 or more is unchanged; a shorter one is left-filled with '0' to length 2 |
| Backend.FolderOrRoot | safestreamx/src/components/dashboards/FileUpload.jsx:67 | a missing or empty folder id becomes `root`, and any other is kept |
| Backend.SetDoc | safestreamx/src/components/logins/Login.jsx:195 | the given fields are written; the document holds exactly the given fields, plus, with merge, the fields it already had, which keep their values |
| Upload.FileId | safestreamx/src/components/dashboards/FileUpload.jsx:46 | a storage file id always contains '-' |
| Upload.ProcessFile | safestreamx/src/components/dashboards/FileUpload.jsx:28-73 | one file's stages are a prefix of the pipeline, the whole pipeline iff no failure; the object is written after 6 stages, the record only after 10 |
| Upload.ProcessFileWrites | safestreamx/src/components/dashboards/FileUpload.jsx:45-71 | the object comes first; the record points at that object and has the stated fields, including the folder or `root`, `isShared` false, and this file's own key |
| Upload.ProcessFileAddsOnce | safestreamx/src/components/dashboards/FileUpload.jsx:58-71 | a file adds at most one document, under the id `addDoc` returned, and a completed file adds exactly one |
| Upload.Epilogue | safestreamx/src/components/dashboards/FileUpload.jsx:76-85 | after success the input is reset and the callback is called iff given, at most once; after a failure there is exactly one alert with the prefix |
| Upload.HandleFileChange | safestreamx/src/components/dashboards/FileUpload.jsx:17-89 | an empty selection changes nothing; otherwise `isUploading` is true from the start until the final event and false at the end; folders and users are untouched |
| Upload.UploadOrder | safestreamx/src/components/dashboards/FileUpload.jsx:27-74 | files are handled in index order, each in pipeline order, and after a file fails no later file leaves any trace |
| Upload.UploadSucceeds | safestreamx/src/components/dashboards/FileUpload.jsx:76-82 | the input is reset, and the callback called when given, iff the selection is non-empty and every file completed |
| Upload.UploadNotifiesLast | safestreamx/src/components/dashboards/FileUpload.jsx:79-82 | the callback runs at most once, and after every pipeline step |
| Upload.UploadAlerts | safestreamx/src/components/dashboards/FileUpload.jsx:83-85 | every alert is the prefix followed by the error of one selected file |
| Upload.UploadPersists | safestreamx/src/components/dashboards/FileUpload.jsx:57-74 | every file that completed has its own record stored under its `addDoc` id after the batch, even when a later file fails |
| Upload.PipelinePercents | safestreamx/src/components/dashboards/FileUpload.jsx:31-73 | a file's encryption bar is set to 10, 30, 100 and its upload bar to 10, 70, 90, 100 |
| Upload.ProgressNonDecreasing | safestreamx/src/components/dashboards/FileUpload.jsx:31-73 | along any prefix of the pipeline neither bar goes back |
| Upload.UploadProgressMonotone | safestreamx/src/components/dashboards/FileUpload.jsx:27-74 | in every run of the handler, each file's bars never go back, and a completed file ends at 100 on both |
| Listing.Query | safestreamx/src/components/dashboards/FileList.jsx:22-49 | the query returns exactly the documents passing the filter, each once with its id, name and data, ordered by name and then by id |
| Listing.ListingUnique | safestreamx/src/components/dashboards/FileList.jsx:26-41 | two sorted results of the same query are equal, so the order of the query's rows is fully determined |
| Listing.ListedIff | safestreamx/src/components/dashboards/FileList.jsx:22-49 | an id is listed iff its document exists and passes the owner and folder filter |
| Listing.RemoveId | safestreamx/src/components/dashboards/FileList.jsx:120 | the filtered list keeps exactly the rows whose id differs |
| Listing.RemoveIdSorted | safestreamx/src/components/dashboards/FileList.jsx:120 | filtering keeps the listing's order |
| Listing.RemoveAbsentId | safestreamx/src/components/dashboards/FileList.jsx:128 | filtering out an id that is not listed changes nothing |
| FileList.FetchItems | safestreamx/src/components/dashboards/FileList.jsx:16-59 | with a user and both reads succeeding, both lists are the sorted query results for this user and folder; any failure keeps the lists and sets the load error; loading ends false |
| FileList.Fetch | safestreamx/src/components/dashboards/FileList.jsx:68-69 | `fetch` rejects only when offline; online, it returns the object stored at the URL's path |
| FileList.HandleDownload | safestreamx/src/components/dashboards/FileList.jsx:65-102 | a saved file was fetched from `encryptedUrl`, decrypted with the key from `encryptedKey` and the IV from `iv`, labelled with `name` and `originalType`, and saved as `name`; offline or without a crypto platform it alerts |
| FileList.DeleteObject | safestreamx/src/components/dashboards/FileList.jsx:113-114 | Storage deletion succeeds iff the call goes through and an object is stored at the path, and it then removes exactly that object; a missing object gives the not-found error |
| FileList.HandleDeleteAsWritten | safestreamx/src/components/dashboards/FileList.jsx:105-134 | declining changes nothing; a file deletion targets `files/<uid>/<document id>`; a null user alerts; a folder deletion is the same as in the corrected handler |
| FileList.HandleDelete | safestreamx/src/components/dashboards/FileList.jsx:105-134 | declining changes nothing; a file deletion targets the object its record's URL points at; a folder deletion removes only its own document |
| FileList.DeleteFileEffect | safestreamx/src/components/dashboards/FileList.jsx:111-120 | a successful file deletion removes exactly that object, that document and the rows with that id, keeps the rest and their order, and leaves folders alone |
| FileList.DeleteFolderEffect | safestreamx/src/components/dashboards/FileList.jsx:121-129 | deleting a folder is not recursive: files, objects and other folders stay; only its document and rows go |
| FileList.DeleteFileFailure | safestreamx/src/components/dashboards/FileList.jsx:130-133 | a failed deletion keeps the view and the documents and alerts with the prefix; the object is gone only if the document deletion alone failed |
| FileList.HandleItemClick | safestreamx/src/components/dashboards/FileList.jsx:208-214 | a folder click forwards (id, name) iff a handler is given; a file click expands that row iff it was not the expanded one |
| FileList.ClickTwice | safestreamx/src/components/dashboards/FileList.jsx:211-213 | two clicks on a file restore the selection iff that row or none was expanded; otherwise they leave none |
| FileList.FileIcon | safestreamx/src/components/dashboards/FileList.jsx:162-195 | the first of image, pdf, video, audio that occurs in the type decides the icon, in that order of priority; otherwise generic |
| FileList.NoTypeIsGeneric | safestreamx/src/components/dashboards/FileList.jsx:163 | a missing or empty type gets the generic icon |
| FileList.ImageWins | safestreamx/src/components/dashboards/FileList.jsx:165 | any type containing "image" gets the image icon |
| FileList.PdfWins | safestreamx/src/components/dashboards/FileList.jsx:171 | any type mentioning "pdf" but not "image" gets the PDF icon |
| FileList.VideoWins | safestreamx/src/components/dashboards/FileList.jsx:177 | any type mentioning "video" but neither "image" nor "pdf" gets the video icon |
| FileList.AudioWins | safestreamx/src/components/dashboards/FileList.jsx:183 | any type mentioning "audio" and none of the three earlier words gets the audio icon |
| FileList.GenericWhenLettersMissing | safestreamx/src/components/dashboards/FileList.jsx:189-194 | a type missing a letter of each of the four words (such as `text/plain`) gets the generic icon |
| RoundTrip.UploadThenDownload | safestreamx/src/components/dashboards/FileList.jsx:68-89 | a file uploaded once and downloaded from its record comes back with its original bytes, name and type, and is saved under its name |
| RoundTrip.ObjectPathInjective | safestreamx/src/components/dashboards/FileUpload.jsx:47 | a storage path with a slash-free uid determines both the uid and the file id |
| RoundTrip.UploadKeepsObjectsFromUploads | safestreamx/src/components/dashboards/FileUpload.jsx:46-50 | uploads put objects only at `files/<uid>/<file id>`, where the file id contains '-' |
| RoundTrip.DeleteAsWrittenMissesObject | safestreamx/src/components/dashboards/FileList.jsx:113-114 | the delete handler as written never finds its object: it changes nothing and alerts object-not-found |
| RoundTrip.UploadThenDeleteAsWritten | safestreamx/src/components/dashboards/FileList.jsx:111-120 | right after an upload, deleting the file as written leaves its object and document in place and alerts |
| RoundTrip.UploadThenDelete | safestreamx/src/components/dashboards/FileList.jsx:111-120 | with the corrected path, deleting a freshly uploaded file gives back the backend as it was before the upload and drops its row |
| Dashboard.Init | safestreamx/src/components/dashboards/Dashboard.jsx:164-167 | the dashboard starts in `root` with the trail [root/Home], the dialog closed and the counter at 0 |
| Dashboard.FindIndex | safestreamx/src/components/dashboards/Dashboard.jsx:194 | `findIndex` gives the first position holding the id, or -1 iff none does |
| Dashboard.FolderClick | safestreamx/src/components/dashboards/Dashboard.jsx:190-202 | the folder becomes current and ends the trail; a folder already on the trail cuts it just after its first occurrence; otherwise it is appended, keeping the old trail as a prefix |
| Dashboard.BreadcrumbClick | safestreamx/src/components/dashboards/Dashboard.jsx:205-208 | the folder becomes current and the trail is cut to index + 1 crumbs |
| Dashboard.LastCrumbIdempotent | safestreamx/src/components/dashboards/Dashboard.jsx:205-208 | clicking the last crumb changes nothing |
| Dashboard.EnterThenBack | safestreamx/src/components/dashboards/Dashboard.jsx:190-208 | opening a new folder and clicking the crumb one came from restores the previous state |
| Dashboard.FolderClickKeepsWf | safestreamx/src/components/dashboards/Dashboard.jsx:194-201 | a folder click keeps the trail starting at Home, ending at the current folder and without repeated ids |
| Dashboard.BreadcrumbClickKeepsWf | safestreamx/src/components/dashboards/Dashboard.jsx:205-208 | so does a click on a shown crumb |
| Dashboard.QuickAccessClick | safestreamx/src/components/dashboards/Dashboard.jsx:223-232 | `create-folder` opens the dialog, and any other card changes nothing |
| Dashboard.OpenCreateFolder | safestreamx/src/components/dashboards/Dashboard.jsx:291 | the button opens the dialog and changes nothing else |
| Dashboard.CloseCreateFolder | safestreamx/src/components/dashboards/Dashboard.jsx:359 | closing the dialog changes nothing else |
| Dashboard.Refresh | safestreamx/src/components/dashboards/Dashboard.jsx:211-220 | upload completion and folder creation add exactly 1 to the counter and change nothing else |
| Dashboard.StepKeepsWf | safestreamx/src/components/dashboards/Dashboard.jsx:190-232 | every dashboard action keeps the trail well formed; a quick-access card acts only while the root folder is shown, since only then is it rendered (line 308) |
| Dashboard.ReachableWf | safestreamx/src/components/dashboards/Dashboard.jsx:164-208 | from the initial state, after any actions, the trail is non-empty, starts at Home, ends at the current folder and repeats no folder |
| Dashboard.RefreshCounts | safestreamx/src/components/dashboards/Dashboard.jsx:211-220 | the counter grows by exactly the number of completed uploads and created folders |
| CreateFolder.NewFolderRecord | safestreamx/src/components/dashboards/CreateFolderModal.jsx:29-36 | the folder document has the trimmed name (empty iff the input is blank), the parent or `root`, the owner and the time |
| CreateFolder.FolderPathShape | safestreamx/src/components/dashboards/CreateFolderModal.jsx:31-33 | the path is `<parent>/<name>` under a given parent, and the name alone at the root |
| CreateFolder.TopLevelPath | safestreamx/src/components/dashboards/CreateFolderModal.jsx:31-33 | with the parent `root` that the dashboard passes, the path is `root/<name>` |
| CreateFolder.HandleSubmit | safestreamx/src/components/dashboards/CreateFolderModal.jsx:11-52 | a closed dialog does nothing; a blank name only sets the error; a folder is created iff there is a user and `addDoc` succeeds; success resets, closes and reports the id; failures keep the input and show the prefixed message |
| CreateFolder.ClosedIffNoError | safestreamx/src/components/dashboards/CreateFolderModal.jsx:17-51 | the dialog closes iff its error line is empty afterwards |
| CreateFolder.CreatedFolderIsListed | safestreamx/src/components/dashboards/CreateFolderModal.jsx:29-36 | a created folder appears, under its trimmed name, in the refreshed listing of its parent for its owner |
| Profile.Init | safestreamx/src/components/logins/CompleteProfile.jsx:15-41 | the flow starts at step 1 with the account's name and photo (or empty), an empty phone number, country code 1, six empty code slots, no error, 300 seconds, resend off and no code sent |
| Profile.ProfileDocAsWritten | safestreamx/src/components/logins/CompleteProfile.jsx:142-149 | step 1's document has exactly six fields, with the form's name, `phoneVerified` false, and the photo taken from the form as it was when the press began, or else the account's |
| Profile.UpdatedAccount | safestreamx/src/components/logins/CompleteProfile.jsx:130-138 | after `updateProfile` the held account has the uploaded photo, or its old one when no picture was uploaded; uid and email are unchanged |
| Profile.ProfileDoc | safestreamx/src/components/logins/CompleteProfile.jsx:118-149 | the corrected document records the picture uploaded in this step, and otherwise equals the one written |
| Profile.PhotoUrl | safestreamx/src/components/logins/CompleteProfile.jsx:118-121 | a URL is obtained exactly when a picture was chosen and both Storage calls resolved |
| Profile.DialledNumber | safestreamx/src/components/logins/CompleteProfile.jsx:174 | the dialled number starts with '+' |
| Profile.DialledDigits | safestreamx/src/components/logins/CompleteProfile.jsx:174 | after the '+' come the country code and the phone's digits only; formatting an already clean number gives the same result |
| Profile.SaveRemote | safestreamx/src/components/logins/CompleteProfile.jsx:116-155 | the form reaches step 2 iff the upload, `updateProfile` and `setDoc` all succeed; an obtained URL is in the form whatever fails after it; the Auth profile gets the name (and the new URL) iff the calls up to `updateProfile` succeed; a failure writes no document and shows the save error; as written, the document's photo falls back to the account as `updateProfile` left it |
| Profile.SaveProfile | safestreamx/src/components/logins/CompleteProfile.jsx:109-156 | a blank name is refused with nothing else changed; otherwise as above, and on success the user document has `phoneVerified` false and no other user changes |
| Profile.SendCodeAsWritten | safestreamx/src/components/logins/CompleteProfile.jsx:158-189 | as written, step 2 never leaves step 2 and never dials: a short number gets the phone error, and any other the send error |
| Profile.SendCode | safestreamx/src/components/logins/CompleteProfile.jsx:158-189 | corrected: a number shorter than 8 is refused before any SMS; a longer one is dialled, and the form advances to step 3 iff the SMS is sent, with the timer at 300 and resend off |
| Profile.NextStep | safestreamx/src/components/logins/CompleteProfile.jsx:108-190 | as written, one press moves at most from step 1 to step 2; staying shows an error in steps 1 and 2; no number is ever dialled; in any other step it does nothing |
| Profile.NextStepCorrected | safestreamx/src/components/logins/CompleteProfile.jsx:108-190 | corrected, one press moves at most one step forward, and a dialled number is the form's number from step 2 |
| Profile.UploadedPhotoLost | safestreamx/src/components/logins/CompleteProfile.jsx:118-149 | as written, step 1 stores the old photo in the document, while the Auth profile gets the one just uploaded |
| Profile.UploadWithoutPrefillStored | safestreamx/src/components/logins/CompleteProfile.jsx:130-149 | with an empty photo in the form, step 1 as written stores the uploaded picture, read back from the account `updateProfile` just changed |
| Profile.UploadedPhotoKept | safestreamx/src/components/logins/CompleteProfile.jsx:118-149 | corrected, step 1 stores the uploaded photo in the document, the form and the Auth profile |
| Profile.RetryStoresEarlierUpload | safestreamx/src/components/logins/CompleteProfile.jsx:124-149 | after a press that obtained a URL and then failed, the form holds that URL, and a successful retry as written stores it |
| Profile.Back | safestreamx/src/components/logins/CompleteProfile.jsx:426-492 | the back buttons of steps 2 and 3 go back one step and change nothing else |
| Profile.CodeChange | safestreamx/src/components/logins/CompleteProfile.jsx:94-106 | a non-empty value with a non-digit is ignored; otherwise only the given slot takes the value |
| Profile.SingleDigitsJoinToFull | safestreamx/src/components/logins/CompleteProfile.jsx:193-195 | slots of one digit each join to a code as long as the number of slots |
| Profile.VerifyCode | safestreamx/src/components/logins/CompleteProfile.jsx:192-215 | a joined code of length other than 6 is refused before sending; the user goes to the dashboard iff the code is accepted and saved, with `phoneVerified` true and the number merged in, other fields and users unchanged |
| Profile.ResendCodeAsWritten | safestreamx/src/components/logins/CompleteProfile.jsx:217-240 | as written, resend always shows the resend error and changes nothing else |
| Profile.ResendCode | safestreamx/src/components/logins/CompleteProfile.jsx:217-240 | corrected, resend dials the same number; success restarts the countdown, turns resend off and clears the error |
| Profile.SendAndResendAgree | safestreamx/src/components/logins/CompleteProfile.jsx:174-225 | send and resend dial the same number for the same form |
| Profile.NextKeepsBeforeCode | safestreamx/src/components/logins/CompleteProfile.jsx:108-190 | as written, "Next" before the code step keeps the page before it, and step 1's document says the phone is not verified |
| Profile.NextFromStep1Corrected | safestreamx/src/components/logins/CompleteProfile.jsx:109-151 | corrected, "Next" with a name and succeeding calls moves to step 2 and writes an unverified user document |
| Profile.NextFromStep2Corrected | safestreamx/src/components/logins/CompleteProfile.jsx:158-184 | corrected, "Next" with a long enough number and a sent SMS dials the form's number and moves to step 3 with 300 seconds, resend off and the code kept |
| Profile.PressNext | safestreamx/src/components/logins/CompleteProfile.jsx:108-190 | "Next" keeps the user, only appends to the numbers dialled, and never navigates; a resolved `updateProfile` changes the account the page holds |
| Profile.Apply | safestreamx/src/components/logins/CompleteProfile.jsx:319-500 | only controls the current step renders do anything: "Next" in steps 1-2, the name in step 1, the phone in step 2, code slots and "Verify" in step 3, "Resend" in step 3 while enabled; only "Verify" navigates; nothing happens after leaving; dialled numbers only accumulate |
| Profile.Run | safestreamx/src/components/logins/CompleteProfile.jsx:319-500 | over any sequence of presses the user stays the same, dialled numbers only accumulate, and nothing happens after leaving |
| Profile.PressKeepsBeforeCode | safestreamx/src/components/logins/CompleteProfile.jsx:94-240 | as written, no control on the page takes it past the phone number: it stays in step 1 or 2 with no code sent, nothing dialled, no navigation and the phone not verified |
| Profile.RunKeepsBeforeCode | safestreamx/src/components/logins/CompleteProfile.jsx:94-240 | the same holds after any sequence of presses |
| Profile.CodeStepUnreachable | safestreamx/src/components/logins/CompleteProfile.jsx:158-189 | as written, from the first render no sequence of presses reaches step 3, dials a number, leaves for the dashboard or marks the phone verified |
| Profile.CodeStepReachedCorrected | safestreamx/src/components/logins/CompleteProfile.jsx:108-190 | corrected, a name, a long enough number and succeeding calls reach step 3 in three presses, after one SMS to the dialled number |
| Profile.Tick | safestreamx/src/components/logins/CompleteProfile.jsx:62-77 | in step 3 a running countdown drops by one; resend turns on only as it reaches 0 |
| Profile.CountdownRuns | safestreamx/src/components/logins/CompleteProfile.jsx:62-77 | n seconds in step 3 leave max(t - n, 0) on the clock, and resend is enabled iff it has reached 0 |
| Profile.ZeroTimerStays | safestreamx/src/components/logins/CompleteProfile.jsx:64 | at 0 the clock stops |
| Profile.CountdownReadsBack | safestreamx/src/components/logins/CompleteProfile.jsx:465 | the display is digits, ':' and two digits that read back as the minutes and the seconds |
| Login.NewUserDoc | safestreamx/src/components/logins/Login.jsx:202-210 | a first-time user's document has their uid and `phoneVerified` false |
| Login.HandleUserLogin | safestreamx/src/components/logins/Login.jsx:185-225 | a verified user gets `lastLogin` merged in and goes to the dashboard; a known unverified one goes to profile completion with no write; a new one gets a fresh document; any failure shows the error and tries sign-out; loading ends false |
| Login.SecondLoginCompletesProfile | safestreamx/src/components/logins/Login.jsx:197-211 | after a first sign-in, a second one goes to profile completion without another write |
| Login.SignInErrorMessage | safestreamx/src/components/logins/Login.jsx:262-270 | each of the three known codes maps to its own message, and every other code to the default, in both directions |
| Login.HandleGoogleSignIn | safestreamx/src/components/logins/Login.jsx:228-276 | the popup is tried iff the width is above 768; the redirect is tried iff the width is at most 768 or the popup failed; only a failing redirect shows a message; loading ends false |
| Login.PopupCodeNeverShown | safestreamx/src/components/logins/Login.jsx:247-259 | the popup's own error code makes no difference to the outcome |
| App.ProtectedRoute | safestreamx/src/App.jsx:17-43 | the spinner while loading; then the login page without a user and the page itself with one |
| App.Route | safestreamx/src/App.jsx:49-74 | each page is shown only at its own path, a guarded one only to a signed-in user after loading; the spinner only while loading; redirects go only to `/` or `/login`; any unlisted path redirects to `/` |
| App.Resolve | safestreamx/src/App.jsx:51-73 | following the route's redirect always ends on a page or the spinner; a guarded path shows the spinner while auth loads, then the login page to a visitor who is not signed in |
| App.RouteTable | safestreamx/src/App.jsx:51-70 | `/` and `/login` are public; the two guarded pages are shown iff loading is over and a user is signed in |
| App.GuardHolds | safestreamx/src/App.jsx:30-73 | whatever path is asked for, a guarded page is on screen only for a signed-in user once loading is over |
| App.UnknownPathGoesHome | safestreamx/src/App.jsx:73 | any other path redirects to `/` and lands on the landing page |
| App.VerifiedUserReachesDashboard | safestreamx/src/components/logins/Login.jsx:192-196 | after the code is verified (reachable only with the corrected send step), the next sign-in goes to the dashboard |
| App.UnverifiedUserCompletesProfile | safestreamx/src/components/logins/Login.jsx:197-199 | after step 1 of profile completion as written, a sign-in still goes to profile completion, with no write |

## Left out

- AES-GCM itself. Its round trip is the `WebCrypto.IsAead` assumption. Tamper detection and wrong-key rejection are properties of the primitive, not of this code.
- The RSA key-wrapping helpers `generateUserKey`, `encryptFileKey` and `decryptFileKey` (`util/encryption.js:128-201`). Nothing in the application calls them.
- `formatFileSize` and `formatDate`. They are floating-point and locale formatting, for display only.
- The `console.error` logging in every handler.
- The auth-state listeners:
  - the `onAuthStateChanged` effects of `Login.jsx` (lines 129-182) and `Dashboard.jsx` (lines 169-182), and the redirect of the one in `CompleteProfile.jsx` (lines 30-59); that effect's prefill of the name and photo (lines 37-41) is modelled by `Profile.Init`;
  - `setPersistence`, and the `signOut` before a sign-in, whose outcome is ignored.
  Their effect on the guard is the `App.AuthState` input, and `handleUserLogin` is modelled as the step they trigger.
- Interleaving of async calls, React's batching of state updates and `setInterval` scheduling. Each handler is one sequential transition, and each timer tick is one `Profile.Tick`.
- reCAPTCHA and the SMS service of the corrected send and resend steps. The confirmation result is the `codeSent` flag, and whether the SMS goes out is an oracle input.
- The picture chosen in step 1 (`handleImageChange`) and its bytes stored at `profileImages/<uid>`. The picture is represented only by the download URL Storage returns for it, and `uploadBytes` and `getDownloadURL` share one outcome. Of the Auth account only its photo is held (`Profile.Session.account`); its display name is not. The phone-input library's `handlePhoneChange` value format is not modelled: the form holds whatever it reports.
- Download-link plumbing: `URL.createObjectURL`, the temporary anchor and its cleanup. A download ends in the `Saved` outcome.
- The HTTP status of the download `fetch`. The code does not check it, so a missing object yields the error page's bytes, which then fail to decrypt.
- React Router path matching is taken as exact comparison. Case-insensitive and trailing-slash matching are not modelled.
- Presentation-only files: `Sidebar.jsx`, `TopBar.jsx`, `QuickAccess.jsx`, the landing page, `CustomAlert.jsx` and `vite.config.js`.
- Profile.Apply: the account's display name as `updateProfile` sets it is not held; only its photo is, since only the photo is read back (line 145).
- `firebase/config.js`: its initialisation and its error logging. The model uses one fact from it: the shared `auth` is the modular SDK's `getAuth(app)` instance (line 68), with no `RecaptchaVerifier` or `signInWithPhoneNumber` member (the line attaching one, line 27, is commented out). The commented-out drafts at the top of `Login.jsx` and `Dashboard.jsx` are not modelled either.
- Integer widths. Times, sizes and counters are unbounded integers, because no value in these paths comes near a JavaScript limit.
- FileList.HandleDownload: pins down the saved case, offline, and the missing crypto platform. It does not tie each other alert to the message of the step that failed.

## Findings

| source | as written | input that shows it | evidently intended | confidence | as-written member | corrected member |
|---|---|---|---|---|---|---|
| safestreamx/src/components/dashboards/FileList.jsx:113 | a file's Storage object is deleted at `files/<uid>/<Firestore document id>` | any uploaded file: the upload stored it at `files/<uid>/<Date.now()-random>`, and a document id (20 alphanumerics) never equals a file id (always contains '-'); `deleteObject` rejects with object-not-found, an alert is shown, and the document and object both stay | delete the object the record's `encryptedUrl` points at, then the document | high, not executed | RoundTrip.UploadThenDeleteAsWritten | RoundTrip.UploadThenDelete |
| safestreamx/src/components/logins/CompleteProfile.jsx:145 | the user document takes `photoURL` from `formData` as it was before `setFormData` stored the uploaded picture's URL | step 1 with a custom picture chosen and a Google photo prefilled: Auth gets the new URL, but the stored document keeps the old photo (a retry after a later failure does store it, since the form then holds the URL) | the document records the picture uploaded in this step | high, not executed | Profile.UploadedPhotoLost | Profile.UploadedPhotoKept |
| safestreamx/src/components/logins/CompleteProfile.jsx:168 | the reCAPTCHA verifier is built with `new auth.RecaptchaVerifier(...)`, and the code sent with `auth.signInWithPhoneNumber(...)` (also at lines 220 and 228 for resend) | any phone number of 8 or more characters in step 2: `auth` comes from `getAuth(app)` (`firebase/config.js:68`) and has no `RecaptchaVerifier` member, so `new` throws a `TypeError`; the send error is shown, step 3 is never reached and the phone can never be verified | `new RecaptchaVerifier(auth, ...)` and `signInWithPhoneNumber(auth, ...)` imported from `firebase/auth`, so the code is sent and step 3 follows | high, not executed | Profile.CodeStepUnreachable | Profile.CodeStepReachedCorrected |
