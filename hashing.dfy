/**
 * Password records and the two hash dispatchers of hashing.py.
 *
 * The digest primitives (SHA-256 of salt || UTF-8(password), and
 * PBKDF2-HMAC-SHA256 of the UTF-8 password) are library code. They are
 * modelled as deterministic functions supplied by the caller in a
 * `Primitives` value: nothing is assumed about them beyond being functions.
 */
module Hashing {
  import opened Wrappers

  newtype byte = x: int | 0 <= x < 256

  const DEFAULT_SALT_LEN: nat := 16
  const DEFAULT_PBKDF2_ITERS: int := 200000
  const DEFAULT_PBKDF2_DKLEN: int := 32  // 256-bit

  const SHA256: string := "sha256"
  const PBKDF2: string := "pbkdf2"

  const UNSUPPORTED_ALGO_MSG: string := "Unsupported algo. Use 'sha256' or 'pbkdf2'."
  const UNSUPPORTED_RECORD_MSG: string := "Unsupported algo in record."

  /** The exception the Python code raises. */
  datatype Error = ValueError(message: string)

  /**
   * A stored password. `algo` stays a free string so that a record with an
   * unknown tag can be built and handed to the dispatchers, as in Python.
   */
  datatype HashRecord = HashRecord(
    algo: string,
    salt: seq<byte>,
    hashHex: string,
    iterations: int := DEFAULT_PBKDF2_ITERS,
    dklen: int := DEFAULT_PBKDF2_DKLEN)

  /**
   * The hashlib digests as given functions:
   * `sha256Hex(password, salt)` is the hex digest of SHA-256(salt || password),
   * `pbkdf2Hex(password, salt, iterations, dklen)` the hex of PBKDF2-HMAC-SHA256.
   */
  datatype Primitives = Primitives(
    sha256Hex: (string, seq<byte>) -> string,
    pbkdf2Hex: (string, seq<byte>, int, int) -> string)

  /** The two algorithm tags the dispatchers know. */
  predicate Supported(algo: string) {
    algo == SHA256 || algo == PBKDF2
  }

  function Sha256Hash(prims: Primitives, password: string, salt: seq<byte>): string {
    prims.sha256Hex(password, salt)
  }

  function Pbkdf2Hash(prims: Primitives, password: string, salt: seq<byte>,
                      iterations: int := DEFAULT_PBKDF2_ITERS,
                      dklen: int := DEFAULT_PBKDF2_DKLEN): string {
    prims.pbkdf2Hex(password, salt, iterations, dklen)
  }

  /**
   * Hashes `password` under `algo` with the freshly generated `salt` (always
   * DEFAULT_SALT_LEN random bytes). An unknown tag raises and yields no record.
   */
  function HashPassword(prims: Primitives, password: string, salt: seq<byte>,
                        algo: string := SHA256): (r: Result<HashRecord, Error>)
    requires |salt| == DEFAULT_SALT_LEN
    ensures r.Ok? <==> Supported(algo)
    ensures r.Err? ==> r.error == ValueError(UNSUPPORTED_ALGO_MSG)
    ensures r.Ok? ==> r.value.algo == algo && r.value.salt == salt && |r.value.salt| == DEFAULT_SALT_LEN
    ensures r.Ok? ==> r.value.iterations == DEFAULT_PBKDF2_ITERS && r.value.dklen == DEFAULT_PBKDF2_DKLEN
    ensures r.Ok? && algo == SHA256 ==> r.value.hashHex == Sha256Hash(prims, password, salt)
    ensures r.Ok? && algo == PBKDF2 ==>
      r.value.hashHex == Pbkdf2Hash(prims, password, salt, DEFAULT_PBKDF2_ITERS, DEFAULT_PBKDF2_DKLEN)
  {
    if algo == PBKDF2 then
      var h := Pbkdf2Hash(prims, password, salt);
      Ok(HashRecord(algo := PBKDF2, salt := salt, hashHex := h))
    else if algo == SHA256 then
      var h := Sha256Hash(prims, password, salt);
      Ok(HashRecord(algo := SHA256, salt := salt, hashHex := h))
    else
      Err(ValueError(UNSUPPORTED_ALGO_MSG))
  }

  /**
   * The digest verify_password recomputes for `password`: PBKDF2 with the
   * record's salt, iterations and dklen, or SHA-256 with the record's salt.
   * An unknown tag raises.
   */
  function RecordDigest(prims: Primitives, password: string, record: HashRecord): (r: Result<string, Error>)
    ensures r.Err? <==> !Supported(record.algo)
    ensures r.Err? ==> r.error == ValueError(UNSUPPORTED_RECORD_MSG)
  {
    if record.algo == PBKDF2 then
      Ok(Pbkdf2Hash(prims, password, record.salt, record.iterations, record.dklen))
    else if record.algo == SHA256 then
      Ok(Sha256Hash(prims, password, record.salt))
    else
      Err(ValueError(UNSUPPORTED_RECORD_MSG))
  }

  /**
   * Recomputes the digest of `password` for the record and compares it with
   * the stored hex string. An unknown tag raises rather than answering false.
   */
  function VerifyPassword(prims: Primitives, password: string, record: HashRecord): (r: Result<bool, Error>)
    ensures r.Err? <==> !Supported(record.algo)
    ensures r.Err? ==> r.error == ValueError(UNSUPPORTED_RECORD_MSG)
  {
    match RecordDigest(prims, password, record)
    case Err(e) => Err(e)
    case Ok(h) => Ok(h == record.hashHex)
  }

  /**
   * Verification is exact string equality of the recomputed digest with the
   * stored one: no case folding or other normalisation.
   */
  lemma VerifyIsExactComparison(prims: Primitives, password: string, record: HashRecord)
    requires Supported(record.algo)
    ensures VerifyPassword(prims, password, record) == Ok(RecordDigest(prims, password, record).value == record.hashHex)
  {
  }

  /** Round trip: a password verifies against the record hashing it produced. */
  lemma HashThenVerify(prims: Primitives, password: string, salt: seq<byte>, algo: string)
    requires |salt| == DEFAULT_SALT_LEN
    requires Supported(algo)
    ensures HashPassword(prims, password, salt, algo).Ok?
    ensures VerifyPassword(prims, password, HashPassword(prims, password, salt, algo).value) == Ok(true)
  {
  }

  /**
   * Verifying another password against a freshly hashed record succeeds only
   * if its digest collides with the original's; so, for primitives without
   * collisions under that salt, it fails.
   */
  lemma VerifyOtherPassword(prims: Primitives, password: string, other: string, salt: seq<byte>, algo: string)
    requires |salt| == DEFAULT_SALT_LEN
    requires Supported(algo)
    ensures var rec := HashPassword(prims, password, salt, algo).value;
      VerifyPassword(prims, other, rec) == Ok(true) <==>
      RecordDigest(prims, other, rec) == RecordDigest(prims, password, rec)
  {
  }

  /** A SHA-256 record's verdict does not depend on its PBKDF2 fields. */
  lemma Sha256IgnoresPbkdf2Fields(prims: Primitives, password: string, record: HashRecord, iterations: int, dklen: int)
    requires record.algo == SHA256
    ensures VerifyPassword(prims, password, record.(iterations := iterations, dklen := dklen))
         == VerifyPassword(prims, password, record)
  {
  }
}
