/**
 * The exhaustive search of brute_force.py: every string over `charset` with
 * length `minLen..maxLen`, shorter lengths first and each length in
 * `itertools.product` order, is hashed under the record's algorithm until one
 * digest equals the stored hex string.
 */
module BruteForce {
  import opened Wrappers
  import opened Hashing
  import opened Enumeration

  const DEFAULT_MIN_LEN: int := 1
  const DEFAULT_MAX_LEN: int := 5
  const ASCII_LOWERCASE: string := "abcdefghijklmnopqrstuvwxyz"

  /** What `itertools.product` raises for a negative `repeat`. */
  const NEGATIVE_REPEAT_MSG: string := "repeat argument cannot be negative"

  /** The digest the search computes for one candidate, chosen by the record's tag. */
  function CandidateDigest(prims: Primitives, record: HashRecord, candidate: string): (r: Result<string, Error>)
    ensures r.Err? <==> !Supported(record.algo)
    ensures r.Err? ==> r.error == ValueError(UNSUPPORTED_RECORD_MSG)
  {
    if record.algo == SHA256 then Ok(Sha256Hash(prims, candidate, record.salt))
    else if record.algo == PBKDF2 then Ok(Pbkdf2Hash(prims, candidate, record.salt, record.iterations, record.dklen))
    else Err(ValueError(UNSUPPORTED_RECORD_MSG))
  }

  /** The candidate's digest is exactly the stored hex string. */
  predicate Accepts(prims: Primitives, record: HashRecord, candidate: string) {
    CandidateDigest(prims, record, candidate) == Ok(record.hashHex)
  }

  /** The candidates of lengths `lo..hi`, shorter lengths first, each length in product order. */
  function Space(cs: string, lo: nat, hi: int): seq<string>
    decreases hi - lo
  {
    if hi < lo then [] else Space(cs, lo, hi - 1) + Product(cs, hi)
  }

  /** `w` is a string the search over `cs` and lengths `lo..hi` generates. */
  predicate InSpace(w: string, cs: string, lo: int, hi: int) {
    lo <= |w| <= hi && AllIn(w, cs)
  }

  /**
   * Hashes `cands` in order: the first accepted candidate, nothing once the
   * sequence is exhausted, or the error raised by the first digest computed.
   */
  function Scan(prims: Primitives, record: HashRecord, cands: seq<string>): Result<Option<string>, Error> {
    if cands == [] then Ok(None)
    else match CandidateDigest(prims, record, cands[0])
      case Err(e) => Err(e)
      case Ok(h) => if h == record.hashHex then Ok(Some(cands[0])) else Scan(prims, record, cands[1..])
  }

  /**
   * The outcome of a search: nothing for an empty length range, the
   * `itertools.product` error when the first length is negative, otherwise
   * the scan of the whole candidate space.
   */
  function Search(prims: Primitives, record: HashRecord, minLen: int, maxLen: int, charset: string)
    : Result<Option<string>, Error>
  {
    if maxLen < minLen then Ok(None)
    else if minLen < 0 then Err(ValueError(NEGATIVE_REPEAT_MSG))
    else Scan(prims, record, Space(charset, minLen, maxLen))
  }

  /** The search loop: lengths ascending, candidates of one length in product order. */
  method BruteForce(prims: Primitives, record: HashRecord,
                    minLen: int := DEFAULT_MIN_LEN, maxLen: int := DEFAULT_MAX_LEN,
                    charset: string := ASCII_LOWERCASE)
    returns (found: Result<Option<string>, Error>)
    ensures found == Search(prims, record, minLen, maxLen, charset)
  {
    var length := minLen;
    while length <= maxLen
      invariant minLen <= length
      invariant length > minLen ==> 0 <= minLen && length - 1 <= maxLen
      invariant 0 <= minLen ==> Scan(prims, record, Space(charset, minLen, length - 1)) == Ok(None)
    {
      if length < 0 {
        return Err(ValueError(NEGATIVE_REPEAT_MSG));
      }
      var combos := Product(charset, length);
      var i := 0;
      while i < |combos|
        invariant 0 <= i <= |combos|
        invariant Scan(prims, record, combos[..i]) == Ok(None)
      {
        var candidate := combos[i];
        var h: string;
        if record.algo == SHA256 {
          h := Sha256Hash(prims, candidate, record.salt);
        } else if record.algo == PBKDF2 {
          h := Pbkdf2Hash(prims, candidate, record.salt, record.iterations, record.dklen);
        } else {
          SearchDecidedAt(prims, record, minLen, length, maxLen, charset, i);
          return Err(ValueError(UNSUPPORTED_RECORD_MSG));
        }
        if h == record.hashHex {
          SearchDecidedAt(prims, record, minLen, length, maxLen, charset, i);
          return Ok(Some(candidate));
        }
        ScanStep(prims, record, combos, i);
        i := i + 1;
      }
      assert combos[..i] == combos;
      LengthExhausted(prims, record, minLen, length, charset);
      length := length + 1;
    }
    return Ok(None);
  }

  /** Scanning a concatenation scans the second part only when the first finds nothing. */
  lemma {:induction false} ScanAppend(prims: Primitives, record: HashRecord, a: seq<string>, b: seq<string>)
    ensures Scan(prims, record, a + b) ==
      if Scan(prims, record, a) == Ok(None) then Scan(prims, record, b) else Scan(prims, record, a)
  {
    if a != [] {
      assert (a + b)[0] == a[0] && (a + b)[1..] == a[1..] + b;
      ScanAppend(prims, record, a[1..], b);
    } else {
      assert a + b == b;
    }
  }

  /** One more rejected candidate keeps the scan empty-handed. */
  lemma ScanStep(prims: Primitives, record: HashRecord, s: seq<string>, i: nat)
    requires i < |s| && Scan(prims, record, s[..i]) == Ok(None)
    requires CandidateDigest(prims, record, s[i]).Ok? && !Accepts(prims, record, s[i])
    ensures Scan(prims, record, s[..i + 1]) == Ok(None)
  {
    assert s[..i + 1] == s[..i] + [s[i]];
    ScanAppend(prims, record, s[..i], [s[i]]);
  }

  /**
   * Once the shorter lengths and the first `i` candidates of length `len` are
   * rejected, the search is decided by candidate `i` when its digest raises or matches.
   */
  lemma SearchDecidedAt(prims: Primitives, record: HashRecord, lo: nat, len: nat, hi: int, cs: string, i: nat)
    requires lo <= len <= hi && i < |Product(cs, len)|
    requires Scan(prims, record, Space(cs, lo, len - 1)) == Ok(None)
    requires Scan(prims, record, Product(cs, len)[..i]) == Ok(None)
    requires !CandidateDigest(prims, record, Product(cs, len)[i]).Ok? || Accepts(prims, record, Product(cs, len)[i])
    ensures Search(prims, record, lo, hi, cs) ==
      if Accepts(prims, record, Product(cs, len)[i]) then Ok(Some(Product(cs, len)[i]))
      else Err(ValueError(UNSUPPORTED_RECORD_MSG))
  {
    var combos := Product(cs, len);
    var rest := combos[i..] + Space(cs, len + 1, hi);
    SpaceSplitAt(cs, lo, len, hi, i);
    ScanPast(prims, record, Space(cs, lo, len - 1), combos[..i], rest);
    assert rest[0] == combos[i];
  }

  /** The space cut just before candidate `i` of length `len`. */
  lemma SpaceSplitAt(cs: string, lo: nat, len: nat, hi: int, i: nat)
    requires lo <= len <= hi && i <= |Product(cs, len)|
    ensures Space(cs, lo, hi) ==
      Space(cs, lo, len - 1) + (Product(cs, len)[..i] + (Product(cs, len)[i..] + Space(cs, len + 1, hi)))
  {
    var combos := Product(cs, len);
    var after := Space(cs, len + 1, hi);
    SpaceSplit(cs, lo, len, hi);
    assert combos == combos[..i] + combos[i..];
    assert combos + after == combos[..i] + (combos[i..] + after);
  }

  /** Two rejected prefixes are passed over. */
  lemma ScanPast(prims: Primitives, record: HashRecord, a: seq<string>, b: seq<string>, rest: seq<string>)
    requires Scan(prims, record, a) == Ok(None) && Scan(prims, record, b) == Ok(None)
    ensures Scan(prims, record, a + (b + rest)) == Scan(prims, record, rest)
  {
    ScanAppend(prims, record, a, b + rest);
    ScanAppend(prims, record, b, rest);
  }

  /** Rejecting every candidate of length `len` extends the rejected prefix of the space by that length. */
  lemma LengthExhausted(prims: Primitives, record: HashRecord, lo: nat, len: nat, cs: string)
    requires lo <= len
    requires Scan(prims, record, Space(cs, lo, len - 1)) == Ok(None)
    requires Scan(prims, record, Product(cs, len)) == Ok(None)
    ensures Scan(prims, record, Space(cs, lo, len)) == Ok(None)
  {
    ScanAppend(prims, record, Space(cs, lo, len - 1), Product(cs, len));
  }

  /** The space of lengths `lo..hi` is the lengths below `len`, then length `len`, then the lengths above. */
  lemma {:induction false} SpaceSplit(cs: string, lo: nat, len: nat, hi: int)
    requires lo <= len <= hi
    ensures Space(cs, lo, hi) == Space(cs, lo, len - 1) + (Product(cs, len) + Space(cs, len + 1, hi))
  {
    if hi > len {
      SpaceSplit(cs, lo, len, hi - 1);
      assert Space(cs, len + 1, hi) == Space(cs, len + 1, hi - 1) + Product(cs, hi);
    }
  }

  /** The space holds exactly the strings over `cs` whose length lies in `lo..hi`. */
  lemma {:induction false} SpaceMember(cs: string, lo: nat, hi: int, w: string)
    ensures w in Space(cs, lo, hi) <==> InSpace(w, cs, lo, hi)
    decreases hi - lo
  {
    if hi >= lo {
      SpaceMember(cs, lo, hi - 1, w);
      ProductMember(cs, hi, w);
    }
  }

  /**
   * The space is empty exactly when the length range is, or when the
   * character set is empty and the empty string (length 0) is out of range.
   */
  lemma SpaceEmpty(cs: string, lo: nat, hi: int)
    ensures Space(cs, lo, hi) == [] <==> hi < lo || (cs == [] && lo > 0)
  {
    var space := Space(cs, lo, hi);
    if space != [] && cs == [] && lo > 0 {
      assert false;
    }
    if lo <= hi && (cs != [] || lo == 0) {
      var w: string := if lo == 0 then [] else seq(lo, _ => cs[0]);
      SpaceMember(cs, lo, hi, w);
    }
  }

  /** A scan fails only on an unknown tag, and then at its first candidate. */
  lemma {:induction false} ScanError(prims: Primitives, record: HashRecord, s: seq<string>)
    ensures Scan(prims, record, s).Err? <==> s != [] && !Supported(record.algo)
    ensures Scan(prims, record, s).Err? ==> Scan(prims, record, s).error == ValueError(UNSUPPORTED_RECORD_MSG)
  {
    if s != [] && Supported(record.algo) {
      ScanError(prims, record, s[1..]);
    }
  }

  /** A scan finds nothing exactly when it raises nothing and rejects every candidate. */
  lemma {:induction false} ScanNone(prims: Primitives, record: HashRecord, s: seq<string>)
    ensures Scan(prims, record, s) == Ok(None) <==>
      (s == [] || Supported(record.algo)) && forall j :: 0 <= j < |s| ==> !Accepts(prims, record, s[j])
  {
    if s != [] {
      ScanNone(prims, record, s[1..]);
      assert forall j :: 0 < j < |s| ==> s[j] == s[1..][j - 1];
    }
  }

  /** A scan that finds `c` finds its first accepted candidate. */
  lemma {:induction false} ScanFound(prims: Primitives, record: HashRecord, s: seq<string>, c: string)
    requires Scan(prims, record, s) == Ok(Some(c))
    ensures exists i :: (0 <= i < |s| && s[i] == c && Accepts(prims, record, c) &&
      forall j :: 0 <= j < i ==> !Accepts(prims, record, s[j]))
  {
    if !Accepts(prims, record, s[0]) {
      ScanFound(prims, record, s[1..], c);
      var i :| 0 <= i < |s[1..]| && s[1..][i] == c && Accepts(prims, record, c) &&
        forall j :: 0 <= j < i ==> !Accepts(prims, record, s[1..][j]);
      assert s[i + 1] == c;
      forall j | 0 <= j < i + 1 ensures !Accepts(prims, record, s[j]) {
        if j > 0 { assert s[j] == s[1..][j - 1]; }
      }
    }
  }

  /**
   * A found password lies in the search space, the record's tag is a
   * supported one, and its digest equals the stored hex string.
   */
  lemma SearchResultInSpace(prims: Primitives, record: HashRecord, minLen: int, maxLen: int, charset: string, c: string)
    requires Search(prims, record, minLen, maxLen, charset) == Ok(Some(c))
    ensures InSpace(c, charset, minLen, maxLen)
    ensures Supported(record.algo) && CandidateDigest(prims, record, c) == Ok(record.hashHex)
  {
    var space := Space(charset, minLen, maxLen);
    ScanFound(prims, record, space, c);
    SpaceMember(charset, minLen, maxLen, c);
  }

  /**
   * The found password is the first match in enumeration order: no string of
   * a shorter length in range matches, and neither does any string of its
   * own length that comes earlier in product order.
   */
  lemma SearchFindsFirst(prims: Primitives, record: HashRecord, minLen: int, maxLen: int, charset: string, c: string)
    requires Search(prims, record, minLen, maxLen, charset) == Ok(Some(c))
    ensures forall w :: InSpace(w, charset, minLen, |c| - 1) ==> !Accepts(prims, record, w)
    ensures exists k :: (0 <= k < |Product(charset, |c|)| && Product(charset, |c|)[k] == c &&
      forall j :: 0 <= j < k ==> !Accepts(prims, record, Product(charset, |c|)[j]))
  {
    SearchResultInSpace(prims, record, minLen, maxLen, charset, c);
    var len := |c|;
    var before, combos, after := Space(charset, minLen, len - 1), Product(charset, len), Space(charset, len + 1, maxLen);
    SpaceSplit(charset, minLen, len, maxLen);
    SpaceMember(charset, minLen, len - 1, c);
    SpaceMember(charset, len + 1, maxLen, c);
    ScanSkips(prims, record, before, combos + after, c);
    ScanKeeps(prims, record, combos, after, c);
    ShorterRejected(prims, record, charset, minLen, len);
    ScanFound(prims, record, combos, c);
  }

  /** When the scan of the lengths below `len` finds nothing, no string of those lengths matches. */
  lemma ShorterRejected(prims: Primitives, record: HashRecord, cs: string, lo: nat, len: nat)
    requires Scan(prims, record, Space(cs, lo, len - 1)) == Ok(None)
    ensures forall w :: InSpace(w, cs, lo, len - 1) ==> !Accepts(prims, record, w)
  {
    ScanNone(prims, record, Space(cs, lo, len - 1));
    forall w | InSpace(w, cs, lo, len - 1) ensures !Accepts(prims, record, w) {
      SpaceMember(cs, lo, len - 1, w);
    }
  }

  /** A scan of `a + b` that finds something outside `a` rejected all of `a`. */
  lemma ScanSkips(prims: Primitives, record: HashRecord, a: seq<string>, b: seq<string>, c: string)
    requires Scan(prims, record, a + b) == Ok(Some(c)) && c !in a
    ensures Scan(prims, record, a) == Ok(None) && Scan(prims, record, b) == Ok(Some(c))
  {
    ScanAppend(prims, record, a, b);
    ScanError(prims, record, a);
    if Scan(prims, record, a) != Ok(None) {
      ScanFound(prims, record, a, c);
    }
  }

  /** A scan of `a + b` that finds something outside `b` found it in `a`. */
  lemma ScanKeeps(prims: Primitives, record: HashRecord, a: seq<string>, b: seq<string>, c: string)
    requires Scan(prims, record, a + b) == Ok(Some(c)) && c !in b
    ensures Scan(prims, record, a) == Ok(Some(c))
  {
    ScanAppend(prims, record, a, b);
    if Scan(prims, record, a) == Ok(None) {
      ScanFound(prims, record, b, c);
    }
  }

  /**
   * The search raises exactly in two cases: a negative first length (from
   * `itertools.product`), or an unknown tag once at least one candidate is
   * generated, whatever the stored digest.
   */
  lemma SearchError(prims: Primitives, record: HashRecord, minLen: int, maxLen: int, charset: string)
    ensures Search(prims, record, minLen, maxLen, charset) == Err(ValueError(NEGATIVE_REPEAT_MSG)) <==>
      minLen < 0 && minLen <= maxLen
    ensures Search(prims, record, minLen, maxLen, charset) == Err(ValueError(UNSUPPORTED_RECORD_MSG)) <==>
      0 <= minLen <= maxLen && !Supported(record.algo) && (charset != [] || minLen == 0)
    ensures Search(prims, record, minLen, maxLen, charset).Err? ==>
      Search(prims, record, minLen, maxLen, charset).error in
        {ValueError(NEGATIVE_REPEAT_MSG), ValueError(UNSUPPORTED_RECORD_MSG)}
  {
    if 0 <= minLen <= maxLen {
      ScanError(prims, record, Space(charset, minLen, maxLen));
      SpaceEmpty(charset, minLen, maxLen);
    }
  }

  /** When the search raises nothing, it finds nothing exactly when no string in the space matches. */
  lemma SearchNotFound(prims: Primitives, record: HashRecord, minLen: int, maxLen: int, charset: string)
    requires Search(prims, record, minLen, maxLen, charset).Ok?
    ensures Search(prims, record, minLen, maxLen, charset) == Ok(None) <==>
      forall w :: InSpace(w, charset, minLen, maxLen) ==> !Accepts(prims, record, w)
  {
    if minLen <= maxLen {
      var space := Space(charset, minLen, maxLen);
      ScanNone(prims, record, space);
      if Scan(prims, record, space) == Ok(None) {
        forall w | InSpace(w, charset, minLen, maxLen) ensures !Accepts(prims, record, w) {
          SpaceMember(charset, minLen, maxLen, w);
        }
      } else {
        ScanError(prims, record, space);
        var c := Scan(prims, record, space).value.value;
        SearchResultInSpace(prims, record, minLen, maxLen, charset, c);
      }
    }
  }

  /** With `minLen == 0` the empty string is the first candidate tried. */
  lemma SearchEmptyFirst(prims: Primitives, record: HashRecord, maxLen: int, charset: string)
    requires 0 <= maxLen
    ensures |Space(charset, 0, maxLen)| > 0 && Space(charset, 0, maxLen)[0] == []
    ensures Accepts(prims, record, []) ==> Search(prims, record, 0, maxLen, charset) == Ok(Some([]))
  {
    SpaceSplit(charset, 0, 0, maxLen);
    assert Space(charset, 0, maxLen) == [[]] + Space(charset, 1, maxLen);
  }

  lemma {:induction false} ScanIgnoresPbkdf2Fields(prims: Primitives, record: HashRecord, s: seq<string>,
                                                    iterations: int, dklen: int)
    requires record.algo == SHA256
    ensures Scan(prims, record.(iterations := iterations, dklen := dklen), s) == Scan(prims, record, s)
  {
    if s != [] {
      ScanIgnoresPbkdf2Fields(prims, record, s[1..], iterations, dklen);
    }
  }

  /** A SHA-256 record's search does not depend on its PBKDF2 fields. */
  lemma SearchIgnoresPbkdf2Fields(prims: Primitives, record: HashRecord, minLen: int, maxLen: int, charset: string,
                                  iterations: int, dklen: int)
    requires record.algo == SHA256
    ensures Search(prims, record.(iterations := iterations, dklen := dklen), minLen, maxLen, charset)
         == Search(prims, record, minLen, maxLen, charset)
  {
    if 0 <= minLen <= maxLen {
      ScanIgnoresPbkdf2Fields(prims, record, Space(charset, minLen, maxLen), iterations, dklen);
    }
  }

  /**
   * The search's test agrees with verify_password: for a supported tag a
   * candidate is accepted exactly when it verifies; for an unknown tag both raise.
   */
  lemma AcceptsIffVerifies(prims: Primitives, record: HashRecord, candidate: string)
    ensures Supported(record.algo) ==>
      (Accepts(prims, record, candidate) <==> VerifyPassword(prims, candidate, record) == Ok(true))
    ensures !Supported(record.algo) ==>
      CandidateDigest(prims, record, candidate).Err? && VerifyPassword(prims, candidate, record).Err?
  {
  }

  /**
   * Searching a space that contains a hashed password finds a password that
   * verifies against the record, no longer than the original; when no other
   * string collides with the stored digest, it finds the original itself.
   */
  lemma CrackRecoversPassword(prims: Primitives, password: string, salt: seq<byte>, algo: string,
                              minLen: int, maxLen: int, charset: string)
    requires |salt| == DEFAULT_SALT_LEN && Supported(algo)
    requires 0 <= minLen && InSpace(password, charset, minLen, maxLen)
    ensures var rec := HashPassword(prims, password, salt, algo).value;
      var r := Search(prims, rec, minLen, maxLen, charset);
      r.Ok? && r.value.Some? && |r.value.value| <= |password| &&
      VerifyPassword(prims, r.value.value, rec) == Ok(true)
    ensures var rec := HashPassword(prims, password, salt, algo).value;
      (forall w :: RecordDigest(prims, w, rec) == Ok(rec.hashHex) ==> w == password) ==>
      Search(prims, rec, minLen, maxLen, charset) == Ok(Some(password))
  {
    var rec := HashPassword(prims, password, salt, algo).value;
    var space := Space(charset, minLen, maxLen);
    HashThenVerify(prims, password, salt, algo);
    AcceptsIffVerifies(prims, rec, password);
    SpaceMember(charset, minLen, maxLen, password);
    ScanNone(prims, rec, space);
    ScanError(prims, rec, space);
    var c := Scan(prims, rec, space).value.value;
    SearchResultInSpace(prims, rec, minLen, maxLen, charset, c);
    SearchFindsFirst(prims, rec, minLen, maxLen, charset, c);
    AcceptsIffVerifies(prims, rec, c);
    VerifyIsExactComparison(prims, c, rec);
  }
}
