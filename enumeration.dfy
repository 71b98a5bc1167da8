/**
 * The candidate order of `itertools.product(charset, repeat=n)`, each tuple
 * joined into a string: lexicographic by position in `charset`, the leftmost
 * character varying slowest.
 */
module Enumeration {

  /** Every character of `w` occurs in `cs`. */
  predicate AllIn(w: string, cs: string) {
    forall k :: 0 <= k < |w| ==> w[k] in cs
  }

  function Pow(b: nat, n: nat): nat {
    if n == 0 then 1 else b * Pow(b, n - 1)
  }

  /** `c` prepended to every word of `tails`, in order. */
  function PrependAll(c: char, tails: seq<string>): seq<string> {
    seq(|tails|, j requires 0 <= j < |tails| => [c] + tails[j])
  }

  /** For each character of `cs` in order, that character prepended to every word of `tails`. */
  function Extend(cs: string, tails: seq<string>): seq<string> {
    if cs == [] then [] else PrependAll(cs[0], tails) + Extend(cs[1..], tails)
  }

  /** The words of length `n` over `cs`, in product order. */
  function Product(cs: string, n: nat): seq<string> {
    if n == 0 then [[]] else Extend(cs, Product(cs, n - 1))
  }

  /** Every entry of `ds` is a digit in base `b`. */
  predicate IsDigits(ds: seq<nat>, b: nat) {
    forall k :: 0 <= k < |ds| ==> ds[k] < b
  }

  /** The number whose base-`b` digits, most significant first, are `ds`. */
  function Value(ds: seq<nat>, b: nat): nat {
    if ds == [] then 0 else ds[0] * Pow(b, |ds| - 1) + Value(ds[1..], b)
  }

  /** The word whose characters are `cs[d]` for the digits `d` of `ds`, in order. */
  function Spell(cs: string, ds: seq<nat>): (w: string)
    requires IsDigits(ds, |cs|)
    ensures |w| == |ds| && AllIn(w, cs)
  {
    if ds == [] then [] else [cs[ds[0]]] + Spell(cs, ds[1..])
  }

  lemma {:induction false} ExtendLength(cs: string, tails: seq<string>)
    ensures |Extend(cs, tails)| == |cs| * |tails|
  {
    if cs != [] {
      ExtendLength(cs[1..], tails);
      assert |cs| * |tails| == |tails| + (|cs| - 1) * |tails|;
    }
  }

  /** Position `k = i * |tails| + j` of an extension holds `cs[i]` followed by `tails[j]`. */
  lemma {:induction false} ExtendAt(cs: string, tails: seq<string>, i: nat, j: nat, k: nat)
    requires i < |cs| && j < |tails| && k == i * |tails| + j
    ensures k < |Extend(cs, tails)| && Extend(cs, tails)[k] == [cs[i]] + tails[j]
  {
    var m := |tails|;
    var head, rest := PrependAll(cs[0], tails), Extend(cs[1..], tails);
    assert Extend(cs, tails) == head + rest;
    if i > 0 {
      assert k - m == (i - 1) * m + j;
      ExtendAt(cs[1..], tails, i - 1, j, k - m);
    }
  }

  lemma {:induction false} ExtendMember(cs: string, tails: seq<string>, w: string)
    ensures w in Extend(cs, tails) <==> |w| >= 1 && w[0] in cs && w[1..] in tails
  {
    if cs != [] {
      ExtendMember(cs[1..], tails, w);
      if w in PrependAll(cs[0], tails) {
        var j :| 0 <= j < |tails| && PrependAll(cs[0], tails)[j] == w;
        assert w[1..] == tails[j];
      }
      if |w| >= 1 && w[0] == cs[0] && w[1..] in tails {
        var j :| 0 <= j < |tails| && tails[j] == w[1..];
        assert PrependAll(cs[0], tails)[j] == w;
      }
      if |w| >= 1 {
        assert w[0] in cs <==> w[0] == cs[0] || w[0] in cs[1..];
      }
    }
  }

  /** There are exactly |cs|^n words of length `n` over `cs`. */
  lemma {:induction false} ProductLength(cs: string, n: nat)
    ensures |Product(cs, n)| == Pow(|cs|, n)
  {
    if n > 0 {
      ProductLength(cs, n - 1);
      ExtendLength(cs, Product(cs, n - 1));
    }
  }

  /** The product holds exactly the words of length `n` whose characters all lie in `cs`. */
  lemma {:induction false} ProductMember(cs: string, n: nat, w: string)
    ensures w in Product(cs, n) <==> |w| == n && AllIn(w, cs)
  {
    if n > 0 {
      ExtendMember(cs, Product(cs, n - 1), w);
      if |w| >= 1 {
        ProductMember(cs, n - 1, w[1..]);
        assert AllIn(w, cs) <==> w[0] in cs && AllIn(w[1..], cs) by {
          if w[0] in cs && AllIn(w[1..], cs) {
            forall k | 0 <= k < |w| ensures w[k] in cs {
              if k > 0 { assert w[k] == w[1..][k - 1]; }
            }
          }
        }
      }
    }
  }

  /**
   * The product lists words in base-|cs| counting order, most significant
   * position first: the word at position Σ d_i·|cs|^(n-1-i) is
   * `cs[d_0] cs[d_1] … cs[d_(n-1)]`.
   */
  lemma {:induction false} ProductAt(cs: string, ds: seq<nat>)
    requires IsDigits(ds, |cs|)
    ensures Value(ds, |cs|) < |Product(cs, |ds|)|
    ensures Product(cs, |ds|)[Value(ds, |cs|)] == Spell(cs, ds)
  {
    if ds != [] {
      var tails := Product(cs, |ds| - 1);
      var i, j, k := ds[0], Value(ds[1..], |cs|), Value(ds, |cs|);
      assert j < |tails| && tails[j] == Spell(cs, ds[1..]) by {
        ProductAt(cs, ds[1..]);
      }
      assert k == i * |tails| + j by {
        ProductLength(cs, |ds| - 1);
      }
      ExtendAt(cs, tails, i, j, k);
      assert Product(cs, |ds|) == Extend(cs, tails);
    }
  }

  /** Every `k < b * p` splits into a leading digit `d < b` and a remainder `r < p`. */
  lemma {:induction false} LeadingDigit(k: nat, b: nat, p: nat) returns (d: nat, r: nat)
    requires k < b * p
    ensures d < b && r < p && k == d * p + r
    decreases b
  {
    if k < p {
      d, r := 0, k;
    } else {
      assert b * p == (b - 1) * p + p;
      var d', r' := LeadingDigit(k - p, b - 1, p);
      d, r := d' + 1, r';
      assert (d' + 1) * p == d' * p + p;
    }
  }

  /** Every number below b^n is written by some `n`-digit base-`b` sequence. */
  lemma {:induction false} ValueOnto(b: nat, n: nat, k: nat)
    requires k < Pow(b, n)
    ensures exists ds :: |ds| == n && IsDigits(ds, b) && Value(ds, b) == k
  {
    if n == 0 {
      var ds: seq<nat> := [];
      assert Value(ds, b) == k;
    } else {
      var p := Pow(b, n - 1);
      var d, r := LeadingDigit(k, b, p);
      ValueOnto(b, n - 1, r);
      var tail :| |tail| == n - 1 && IsDigits(tail, b) && Value(tail, b) == r;
      var ds := [d] + tail;
      assert ds[1..] == tail;
      assert Value(ds, b) == d * p + r;
    }
  }

  /**
   * The `k`-th word of the product, for any `k` in range, is `k` written in
   * base |cs| with `n` digits, most significant first, digit `d` standing for `cs[d]`.
   */
  lemma ProductIndex(cs: string, n: nat, k: nat)
    requires k < |Product(cs, n)|
    ensures exists ds :: (|ds| == n && IsDigits(ds, |cs|) && Value(ds, |cs|) == k &&
      Product(cs, n)[k] == Spell(cs, ds))
  {
    ProductLength(cs, n);
    ValueOnto(|cs|, n, k);
    var ds :| |ds| == n && IsDigits(ds, |cs|) && Value(ds, |cs|) == k;
    ProductAt(cs, ds);
  }
}
