/** The browser platform the encryption helpers call: `crypto.getRandomValues`,
    the `crypto.subtle` operations on AES-GCM keys, and the typed-array
    conversions between `Uint8Array` and plain number arrays.

    AES-GCM itself is not modelled: a `Subtle` value carries the two cipher
    transforms as opaque functions, and `IsAead` is the only thing assumed of
    them (a ciphertext the encryptor produced opens to its plaintext under the
    same key and IV). The surrounding rules of the W3C Web Cryptography API
    (which calls reject which keys) are modelled as written there. */
module WebCrypto {
  import opened Results

  type byte = b: int | 0 <= b < 256
  type Bytes = seq<byte>

  /** One draw from the platform's random source: its n-th byte. */
  type Entropy = nat -> byte

  const AES_GCM: string := "AES-GCM"

  datatype Usage = EncryptUsage | DecryptUsage

  /** A `CryptoKey`: algorithm name, length in bits, whether `exportKey` may
      reveal it, the operations it may be used for, and its secret bytes. */
  datatype CryptoKey = CryptoKey(
    algorithm: string,
    length: nat,
    extractable: bool,
    usages: set<Usage>,
    material: Bytes)

  /** `window.crypto.subtle`. When `available` is false (no secure context)
      every call rejects. `gcmSeal`/`gcmOpen` are AES-GCM over
      (key bytes, IV, data); `None` is a rejected promise. */
  datatype Subtle = Subtle(
    available: bool,
    gcmSeal: (Bytes, Bytes, Bytes) -> Option<Bytes>,
    gcmOpen: (Bytes, Bytes, Bytes) -> Option<Bytes>)

  /** The authenticated-encryption round trip assumed of the primitive. */
  ghost predicate IsAead(s: Subtle) {
    forall k, iv, pt :: s.gcmSeal(k, iv, pt).Some? ==> s.gcmOpen(k, iv, s.gcmSeal(k, iv, pt).value) == Some(pt)
  }

  /** `crypto.getRandomValues(new Uint8Array(n))`. */
  function GetRandomValues(n: nat, e: Entropy): (r: Bytes)
    ensures |r| == n
    ensures forall i :: 0 <= i < n ==> r[i] == e(i)
  {
    seq(n, (i: nat) => e(i))
  }

  /** AES accepts 128-, 192- and 256-bit keys only. */
  predicate IsAesLength(bits: nat) {
    bits == 128 || bits == 192 || bits == 256
  }

  /** `subtle.generateKey({name, length}, extractable, usages)` for AES-GCM. */
  function GenerateKey(s: Subtle, name: string, length: nat, extractable: bool, usages: set<Usage>, e: Entropy): Option<CryptoKey>
  {
    if !s.available || name != AES_GCM || !IsAesLength(length) || usages == {} then None
    else Some(CryptoKey(AES_GCM, length, extractable, usages, GetRandomValues(length / 8, e)))
  }

  /** `subtle.encrypt({name, iv}, key, data)`. */
  function Encrypt(s: Subtle, name: string, iv: Bytes, key: CryptoKey, data: Bytes): Option<Bytes>
  {
    if !s.available || name != AES_GCM || key.algorithm != AES_GCM || EncryptUsage !in key.usages then None
    else s.gcmSeal(key.material, iv, data)
  }

  /** `subtle.decrypt({name, iv}, key, data)`. */
  function Decrypt(s: Subtle, name: string, iv: Bytes, key: CryptoKey, data: Bytes): Option<Bytes>
  {
    if !s.available || name != AES_GCM || key.algorithm != AES_GCM || DecryptUsage !in key.usages then None
    else s.gcmOpen(key.material, iv, data)
  }

  /** `subtle.exportKey("raw", key)`. */
  function ExportRaw(s: Subtle, key: CryptoKey): Option<Bytes>
  {
    if !s.available || !key.extractable then None else Some(key.material)
  }

  /** `subtle.importKey("raw", data, {name, length}, extractable, usages)`.
      The key length comes from the data; the `length` member of the
      algorithm dictionary is not consulted by the AES import. */
  function ImportRaw(s: Subtle, data: Bytes, name: string, extractable: bool, usages: set<Usage>): Option<CryptoKey>
  {
    if !s.available || name != AES_GCM || !IsAesLength(|data| * 8) || usages == {} then None
    else Some(CryptoKey(AES_GCM, |data| * 8, extractable, usages, data))
  }

  /** A `BufferSource` argument as the helpers accept it: a `Uint8Array`, or
      a plain array of numbers (as stored in a Firestore document). */
  datatype ByteArray = Uint8Array(bytes: Bytes) | NumberArray(numbers: seq<int>)

  /** ECMAScript ToUint8: an integer taken modulo 2^8. */
  function ToUint8(x: int): byte {
    x % 256
  }

  /** `new Uint8Array(numbers)`. */
  function NewUint8Array(numbers: seq<int>): (r: Bytes)
    ensures |r| == |numbers|
    ensures forall i :: 0 <= i < |r| ==> r[i] == ToUint8(numbers[i])
  {
    seq(|numbers|, i requires 0 <= i < |numbers| => ToUint8(numbers[i]))
  }

  /** `Array.from(bytes)`: the same values as plain numbers; converting back
      with `new Uint8Array` gives the original bytes. */
  function ArrayFrom(bytes: Bytes): (r: seq<int>)
    ensures |r| == |bytes|
    ensures forall i :: 0 <= i < |r| ==> 0 <= r[i] < 256
    ensures NewUint8Array(r) == bytes
  {
    seq(|bytes|, i requires 0 <= i < |bytes| => bytes[i] as int)
  }

  /** `x instanceof Uint8Array ? x : new Uint8Array(x)`. */
  function AsUint8Array(a: ByteArray): (r: Bytes)
    ensures a.Uint8Array? ==> r == a.bytes
    ensures a.NumberArray? ==> r == NewUint8Array(a.numbers)
    ensures a.NumberArray? ==> |r| == |a.numbers| && forall i :: 0 <= i < |r| ==> r[i] == ToUint8(a.numbers[i])
  {
    match a
    case Uint8Array(b) => b
    case NumberArray(ns) => NewUint8Array(ns)
  }
}
