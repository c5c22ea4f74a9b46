/** Per-file encryption helpers (`util/encryption.js`): a fresh AES-GCM-256
    key per file, encryption under a fresh 12-byte IV, packaging of the
    ciphertext as a new `File`, and the inverse operations used on download.
    Every failure is reported as an `Error` with one fixed message per helper. */
module Encryption {
  import opened Results
  import opened WebCrypto

  const FILE_KEY_LENGTH: nat := 256
  const FILE_KEY_USAGES: set<Usage> := {EncryptUsage, DecryptUsage}
  const IV_LENGTH: nat := 12
  const ENCRYPTED_MIME_TYPE: string := "application/encrypted"

  const GENERATE_KEY_ERROR: string := "Failed to generate encryption key"
  const ENCRYPT_ERROR: string := "Failed to encrypt file"
  const DECRYPT_ERROR: string := "Failed to decrypt file"
  const IMPORT_KEY_ERROR: string := "Failed to import encryption key"

  /** A browser `File`: name, MIME type (`type`), contents and `lastModified`.
      Its `size` is the length of its contents. */
  datatype File = File(name: string, mimeType: string, content: Bytes, lastModified: int)

  /** What `encryptFile` resolves with: the ciphertext `File`, and the IV and
      raw key bytes as plain number arrays ready to be stored. */
  datatype Sealed = Sealed(encryptedFile: File, iv: seq<int>, encryptedKey: seq<int>)

  /** The kind of key the application uses for one file. */
  ghost predicate IsFileKey(k: CryptoKey) {
    && k.algorithm == AES_GCM
    && k.length == FILE_KEY_LENGTH
    && k.extractable
    && k.usages == FILE_KEY_USAGES
    && |k.material| == FILE_KEY_LENGTH / 8
  }

  /** `generateFileKey`: an extractable AES-GCM-256 key usable for both
      encryption and decryption, whose bytes are the first 32 of the draw. */
  function GenerateFileKey(s: Subtle, draw: Entropy): (r: Result<CryptoKey>)
    ensures r.Ok? <==> s.available
    ensures r.Ok? ==> IsFileKey(r.value) && r.value.material == GetRandomValues(32, draw)
    ensures r.Err? ==> r.message == GENERATE_KEY_ERROR
  {
    match GenerateKey(s, AES_GCM, FILE_KEY_LENGTH, true, FILE_KEY_USAGES, draw)
    case Some(k) => Ok(k)
    case None => Err(GENERATE_KEY_ERROR)
  }

  /** `encryptFile(file, key)`: draws the IV, encrypts the whole file buffer,
      wraps the ciphertext in a new `File` and exports the key. */
  function EncryptFile(s: Subtle, file: File, key: CryptoKey, ivDraw: Entropy, now: int): (r: Result<Sealed>)
    ensures var iv := GetRandomValues(IV_LENGTH, ivDraw);
      r.Ok? <==> Encrypt(s, AES_GCM, iv, key, file.content).Some? && key.extractable
    ensures r.Ok? ==>
      && |r.value.iv| == IV_LENGTH
      && NewUint8Array(r.value.iv) == GetRandomValues(IV_LENGTH, ivDraw)
      && Encrypt(s, AES_GCM, NewUint8Array(r.value.iv), key, file.content) == Some(r.value.encryptedFile.content)
      && r.value.encryptedFile.name == file.name
      && r.value.encryptedFile.mimeType == ENCRYPTED_MIME_TYPE
      && r.value.encryptedFile.lastModified == now
      && NewUint8Array(r.value.encryptedKey) == key.material
    ensures r.Err? ==> r.message == ENCRYPT_ERROR
  {
    var iv := GetRandomValues(IV_LENGTH, ivDraw);
    match Encrypt(s, AES_GCM, iv, key, file.content)
    case None => Err(ENCRYPT_ERROR)
    case Some(ciphertext) =>
      var encryptedFile := File(file.name, ENCRYPTED_MIME_TYPE, ciphertext, now);
      match ExportRaw(s, key)
      case None => Err(ENCRYPT_ERROR)
      case Some(raw) => Ok(Sealed(encryptedFile, ArrayFrom(iv), ArrayFrom(raw)))
  }

  /** `decryptFile(data, iv, key, fileName, fileType)`: the IV may come as a
      `Uint8Array` or as a number array; the plaintext is labelled with the
      caller's name and type, nothing being taken from the ciphertext. */
  function DecryptFile(s: Subtle, data: Bytes, iv: ByteArray, key: CryptoKey, fileName: string, fileType: string, now: int): (r: Result<File>)
    ensures r.Ok? <==> Decrypt(s, AES_GCM, AsUint8Array(iv), key, data).Some?
    ensures r.Ok? ==>
      && Decrypt(s, AES_GCM, AsUint8Array(iv), key, data) == Some(r.value.content)
      && r.value.name == fileName
      && r.value.mimeType == fileType
      && r.value.lastModified == now
    ensures r.Err? ==> r.message == DECRYPT_ERROR
  {
    var ivBytes := AsUint8Array(iv);
    match Decrypt(s, AES_GCM, ivBytes, key, data)
    case None => Err(DECRYPT_ERROR)
    case Some(plaintext) => Ok(File(fileName, fileType, plaintext, now))
  }

  /** `importEncryptionKey(rawKey)`: the bytes become an extractable AES-GCM
      key for encryption and decryption. No length check of its own: the
      platform's AES rule decides, and a 128-bit key is accepted too. */
  function ImportEncryptionKey(s: Subtle, rawKey: ByteArray): (r: Result<CryptoKey>)
    ensures r.Ok? <==> s.available && IsAesLength(|AsUint8Array(rawKey)| * 8)
    ensures r.Ok? ==>
      && r.value.material == AsUint8Array(rawKey)
      && r.value.algorithm == AES_GCM
      && r.value.length == |r.value.material| * 8
      && r.value.extractable
      && r.value.usages == FILE_KEY_USAGES
    ensures r.Err? ==> r.message == IMPORT_KEY_ERROR
  {
    var keyData := AsUint8Array(rawKey);
    match ImportRaw(s, keyData, AES_GCM, true, FILE_KEY_USAGES)
    case Some(k) => Ok(k)
    case None => Err(IMPORT_KEY_ERROR)
  }

  /** A file encrypted under a file key decrypts, with the IV returned by
      `encryptFile` in either form and the same key, to the original bytes,
      labelled with the name and type the caller supplies. */
  lemma SealThenOpen(s: Subtle, key: CryptoKey, file: File, ivDraw: Entropy, sealedAt: int, sealed: Sealed, asTyped: bool, openedAt: int)
    requires IsAead(s) && IsFileKey(key)
    requires EncryptFile(s, file, key, ivDraw, sealedAt) == Ok(sealed)
    ensures var iv := if asTyped then Uint8Array(NewUint8Array(sealed.iv)) else NumberArray(sealed.iv);
      DecryptFile(s, sealed.encryptedFile.content, iv, key, file.name, file.mimeType, openedAt)
        == Ok(File(file.name, file.mimeType, file.content, openedAt))
  {
    var ivBytes := NewUint8Array(sealed.iv);
    var ct := sealed.encryptedFile.content;
    assert s.gcmSeal(key.material, ivBytes, file.content) == Some(ct);
    assert s.gcmOpen(key.material, ivBytes, ct) == Some(file.content);
  }

  /** The stored key bytes import back to exactly the key that was generated. */
  lemma ExportThenImport(s: Subtle, draw: Entropy, key: CryptoKey, file: File, ivDraw: Entropy, now: int, sealed: Sealed, asTyped: bool)
    requires GenerateFileKey(s, draw) == Ok(key)
    requires EncryptFile(s, file, key, ivDraw, now) == Ok(sealed)
    ensures var raw := if asTyped then Uint8Array(NewUint8Array(sealed.encryptedKey)) else NumberArray(sealed.encryptedKey);
      ImportEncryptionKey(s, raw) == Ok(key)
  {
  }

  /** Import does not insist on 256 bits: 16 raw bytes become a 128-bit key. */
  lemma ImportAcceptsShortKey(s: Subtle, raw: Bytes)
    requires s.available && |raw| == 16
    ensures ImportEncryptionKey(s, Uint8Array(raw)).Ok?
    ensures ImportEncryptionKey(s, Uint8Array(raw)).value.length == 128
  {
  }

  /** Stored numbers outside 0..255 are wrapped, not rejected, by the `Uint8Array` conversion. */
  lemma NumberArrayWraps(n: int)
    requires 0 <= n < 256
    ensures AsUint8Array(NumberArray([n + 256])) == [n]
  {
  }
}
