# Password hashing and exhaustive search, modelled in Dafny

This project models the core of a small Python demonstration of salted password hashing and brute-force recovery:

- `hashing.py`: the `HashRecord` password record (algorithm tag, salt, stored hex digest, and the PBKDF2 parameters with their defaults of 200000 iterations and 32 bytes). It also defines `hash_password`, which hashes a password under `"sha256"` or `"pbkdf2"` with a fresh 16-byte salt, and `verify_password`, which recomputes the digest with the record's salt and parameters and compares it with the stored string. Both raise `ValueError` on any other tag.
- `brute_force.py`: `brute_force`. It walks lengths `min_len..max_len` in ascending order. For each length it walks `itertools.product(charset, repeat=length)`, where the leftmost position varies slowest, and hashes each candidate under the record's tag. It returns the first candidate whose digest equals `record.hash_hex`, or `None` once the space is exhausted.

The files:

- `wrappers.dfy` (`Wrappers`): `Option` for Python's `Optional[str]`, and `Result` for "a value, or the exception raised instead".
- `hashing.dfy` (`Hashing`): `HashRecord` with its defaults, the constants, the two dispatchers as functions, and the hash-then-verify lemmas. The hashlib digests are the two fields of a `Primitives` value. They are arbitrary deterministic functions that every operation takes as a parameter. Nothing else is assumed about them.
- `enumeration.dfy` (`Enumeration`): `Product(cs, n)`, the order in which `itertools.product` yields candidates, as a pure recursive sequence. The lemmas give its size (|cs|^n), exactly which words it contains, and the word at each position: every index k below |cs|^n holds the word spelled by the n-digit base-|cs| numeral of k, most significant digit first.
- `brute_force.dfy` (`BruteForce`): the specification. `Space` is the candidate sequence over all lengths. `Scan` hashes a candidate sequence in order. `Search` is the whole outcome. `BruteForce` is the imperative nested loop, proved equal to `Search`. The lemmas about `Search` state what the search promises: the result lies in the space, it is the first match, "not found" holds exactly when nothing matches, the error cases, and agreement with `verify_password`.

Python exceptions become `Err(ValueError(message))` and keep the source's messages. An unknown algorithm tag is a plain string that stays representable, so the error paths are reachable.

Behaviour of the code that the model keeps:
- The code validates no search bounds. `min_len > max_len` gives `None`. An empty charset gives `None` when `1 <= min_len <= max_len`, but with `min_len = 0` the empty string is still tried: it is returned when its digest matches, and an unknown tag raises the record error. A negative `min_len` with `min_len <= max_len` raises the `ValueError` of `itertools.product` ("repeat argument cannot be negative").
- Tags are free strings, not a closed enumeration.
- The digest comparison is exact string equality of the hex strings.
- The charset may contain repeated characters. The product then lists repeated words.

## Model

| member | source | states |
|---|---|---|
| `Hashing.Sha256Hash` | hashing.py:30-32 | opaque wrapper of the hashlib SHA-256 call over salt and password, as a deterministic function supplied in `Primitives` |
| `Hashing.Pbkdf2Hash` | hashing.py:34-38 | opaque wrapper of the hashlib PBKDF2-HMAC-SHA256 call, with the source's defaults of 200000 iterations and 32 bytes |
| `Hashing.RecordDigest` | hashing.py:56-61 | recomputes the digest under the record's tag, salt and PBKDF2 parameters; raises `ValueError("Unsupported algo in record.")` exactly when the tag is unknown |
| `Hashing.HashPassword` | hashing.py:40-53 | yields a record exactly for the tags "sha256" and "pbkdf2", otherwise `ValueError("Unsupported algo. Use 'sha256' or 'pbkdf2'.")`; the record carries the given tag and salt (16 bytes), the default iterations 200000 and dklen 32, and the SHA-256 or default-parameter PBKDF2 digest of the password |
| `Hashing.VerifyPassword` | hashing.py:55-61 | raises `ValueError("Unsupported algo in record.")` exactly when the record's tag is unknown, never answering false for it |
| `Hashing.VerifyIsExactComparison` | hashing.py:55-59 | for a known tag the verdict is exact string equality of the recomputed digest (record's salt, and for PBKDF2 the record's iterations and dklen) with the stored hex string |
| `Hashing.HashThenVerify` | hashing.py:34-61 | round trip: for both supported tags, hashing succeeds and the same password verifies against the record, because the record defaults equal the defaults `pbkdf2_hash` was called with |
| `Hashing.VerifyOtherPassword` | hashing.py:55-59 | another password verifies against a freshly hashed record exactly when its digest collides with the original's |
| `Hashing.Sha256IgnoresPbkdf2Fields` | hashing.py:58-59 | a SHA-256 record's verdict does not depend on its iterations or dklen fields |
| `Enumeration.Product` | brute_force.py:27 | the candidates of one length, in the order `itertools.product(charset, repeat=length)` yields them |
| `Enumeration.ProductLength` | brute_force.py:27 | one length yields exactly N^length candidates, N the size of the charset |
| `Enumeration.ProductMember` | brute_force.py:27-28 | the candidates of one length are exactly the strings of that length whose characters all lie in the charset |
| `Enumeration.ProductAt` | brute_force.py:27-28 | product order is base-N counting order (N the size of the charset), most significant position first: the candidate at index Σ d_i·N^(n-1-i) is cs[d_0]…cs[d_(n-1)] |
| `Enumeration.ValueOnto` | brute_force.py:27 | every index below N^n is the value of some n-digit base-N numeral, so the positional description below covers every candidate |
| `Enumeration.ProductIndex` | brute_force.py:27-28 | for every index k in range, the k-th candidate of one length is the word spelled by the n-digit base-N numeral of k, most significant position first |
| `BruteForce.CandidateDigest` | brute_force.py:29-35 | the per-candidate dispatch raises `ValueError("Unsupported algo in record.")` exactly for an unknown tag |
| `BruteForce.BruteForce` | brute_force.py:15-39 | the nested length/product loop with early return computes exactly `Search`: the first accepted candidate in enumeration order, `None` on exhaustion, or the error raised |
| `BruteForce.Search` | brute_force.py:26-39 | the outcome of the whole search: `None` for an empty length range, the product error for a negative first length, otherwise the scan of every length's candidates in order |
| `BruteForce.SpaceMember` | brute_force.py:26-28 | the enumerated space is exactly the strings over the charset with length in `min_len..max_len` |
| `BruteForce.SpaceEmpty` | brute_force.py:26-27 | the space is empty exactly when `max_len < min_len`, or the charset is empty and length 0 is out of range |
| `BruteForce.ScanError` | brute_force.py:29-35 | hashing a candidate sequence raises exactly when it is non-empty and the tag is unknown, with the record error |
| `BruteForce.ScanNone` | brute_force.py:27-39 | a scan finds nothing exactly when it raises nothing and every candidate's digest differs from the stored one |
| `BruteForce.ScanFound` | brute_force.py:27-38 | a scan that returns `c` returns an accepted candidate at some position before which every candidate was rejected |
| `BruteForce.SearchResultInSpace` | brute_force.py:26-38 | a found password has length in `min_len..max_len`, uses only charset characters, the tag is supported, and its digest equals the stored hex string |
| `BruteForce.SearchFindsFirst` | brute_force.py:26-38 | the found password is the first match: no shorter candidate in range matches, and no candidate of its length earlier in product order matches |
| `BruteForce.SearchError` | brute_force.py:26-35 | the search raises exactly in two cases: the product error when the first length is negative, or the record error for an unknown tag once at least one candidate is generated (before any comparison, whatever the stored digest); an empty space gives no error |
| `BruteForce.SearchNotFound` | brute_force.py:26-39 | when nothing is raised, the result is `None` exactly when no string of the space matches |
| `BruteForce.SearchEmptyFirst` | brute_force.py:26-28 | with `min_len = 0` the empty string is the first candidate, and it is returned when it matches |
| `BruteForce.SearchIgnoresPbkdf2Fields` | brute_force.py:29-33 | a SHA-256 record's search does not depend on its iterations or dklen fields |
| `BruteForce.AcceptsIffVerifies` | brute_force.py:29-36 | for a supported tag the search accepts a candidate exactly when `verify_password` returns true for it; for an unknown tag both raise |
| `BruteForce.CrackRecoversPassword` | brute_force.py:15-39 | searching a space that contains a hashed password finds a password, no longer than the original, that verifies against the record; when no other string collides with the stored digest it finds the original |

## Left out

- `demo.py`: interactive console input and output, the menu, `random.choice` of the secret, wall-clock timing and `bytes.fromhex` parsing of user input.
- `generate_salt` (`os.urandom`): randomness is not modelled. The salt is a parameter of `HashPassword`, and its precondition `|salt| == 16` is what `generate_salt()` always yields. Salt uniqueness across calls is therefore not stated.
- SHA-256, PBKDF2-HMAC-SHA256 and the UTF-8 encoding of the password: these are library code, modelled as arbitrary deterministic functions. Their output format (lowercase hex of a given length) is not modelled. A `UnicodeEncodeError` for unencodable strings is not modelled.
- `Hashing.Pbkdf2Hash`: total; the `ValueError` that hashlib raises for `iterations < 1` or `dklen < 1` is not modelled, because it comes from the library, not from this code.
- `time.time()` in `brute_force`: its value is unused and does not affect the result.
- `BruteForce.BruteForce`: each length's candidates are a materialised sequence rather than the lazy `itertools.product` iterator. Memory use is not modelled; the order and the early exit are.
- Performance and cost claims about PBKDF2 iteration counts.
