/**
 * The query parameters of a URL as the signer holds them: a PHP array with
 * string keys and string values, kept in insertion order, each key at most once.
 * `Put` is `$params[$k] = $v`, `Remove` is `unset($params[$k])`, `KSort` is
 * `ksort($params, SORT_STRING)` and `QueryString` is `http_build_query($params, '', '&')`.
 */
module PhpArray {
  import opened Wrappers
  import opened PhpStrings

  type Entry = (string, string)
  type Params = seq<Entry>

  predicate HasKey(p: Params, k: string) {
    exists i :: 0 <= i < |p| && p[i].0 == k
  }

  /** A PHP array never holds the same key twice. */
  predicate UniqueKeys(p: Params) {
    forall i, j :: 0 <= i < j < |p| ==> p[i].0 != p[j].0
  }

  /** The key/value pairs of the array, forgetting their order. */
  function Entries(p: Params): set<Entry> {
    set e | e in p
  }

  /** `$params[$k]`, or None when `isset` would be false. */
  function Lookup(p: Params, k: string): (r: Option<string>)
    ensures r.Some? <==> HasKey(p, k)
    ensures r.Some? ==> (k, r.value) in p
  {
    if p == [] then None
    else if p[0].0 == k then Some(p[0].1)
    else Lookup(p[1..], k)
  }

  /** With unique keys, a lookup succeeds exactly for the pairs the array holds. */
  lemma {:induction false} LookupFindsEntry(p: Params, k: string, v: string)
    requires UniqueKeys(p)
    ensures Lookup(p, k) == Some(v) <==> (k, v) in p
  {
    if p != [] && p[0].0 != k {
      LookupFindsEntry(p[1..], k, v);
    } else if p != [] && (k, v) in p {
      var i :| 0 <= i < |p| && p[i] == (k, v);
      assert i == 0;
    }
  }

  lemma LookupDependsOnlyOnEntries(p: Params, q: Params, k: string)
    requires UniqueKeys(p) && UniqueKeys(q) && Entries(p) == Entries(q)
    ensures Lookup(p, k) == Lookup(q, k)
  {
    var r := Lookup(p, k);
    if r.Some? {
      LookupFindsEntry(p, k, r.value);
      assert (k, r.value) in Entries(q);
      LookupFindsEntry(q, k, r.value);
    } else if Lookup(q, k).Some? {
      var v := Lookup(q, k).value;
      LookupFindsEntry(q, k, v);
      assert (k, v) in Entries(p);
      LookupFindsEntry(p, k, v);
    }
  }

  /**
   * `$params[$k] = $v`: an existing key keeps its place and takes the new
   * value; a new key is appended at the end. No other key changes.
   */
  function Put(p: Params, k: string, v: string): (r: Params)
    requires UniqueKeys(p)
    ensures !HasKey(p, k) ==> r == p + [(k, v)]
    ensures HasKey(p, k) ==>
      |r| == |p| && forall i :: 0 <= i < |p| ==> r[i] == (if p[i].0 == k then (k, v) else p[i])
    ensures UniqueKeys(r)
    ensures forall e :: e in r <==> (e in p && e.0 != k) || e == (k, v)
  {
    var r := if !HasKey(p, k) then p + [(k, v)] else Replace(p, k, v);
    PutKeepsKeysUnique(p, k, v, r);
    r
  }

  /** The array with the value of the existing key `k` replaced by `v`, in place. */
  function Replace(p: Params, k: string, v: string): (r: Params)
    ensures |r| == |p|
    ensures forall i :: 0 <= i < |p| ==> r[i] == (if p[i].0 == k then (k, v) else p[i])
  {
    if p == [] then []
    else [if p[0].0 == k then (k, v) else p[0]] + Replace(p[1..], k, v)
  }

  /** Either shape of assignment keeps the keys distinct and holds the expected pairs. */
  lemma PutKeepsKeysUnique(p: Params, k: string, v: string, r: Params)
    requires UniqueKeys(p)
    requires !HasKey(p, k) ==> r == p + [(k, v)]
    requires HasKey(p, k) ==>
      |r| == |p| && forall i :: 0 <= i < |p| ==> r[i] == (if p[i].0 == k then (k, v) else p[i])
    ensures UniqueKeys(r)
    ensures forall e :: e in r <==> (e in p && e.0 != k) || e == (k, v)
  {
    if HasKey(p, k) {
      var n :| 0 <= n < |p| && p[n].0 == k;
      forall e ensures e in r <==> (e in p && e.0 != k) || e == (k, v) {
        if e in r {
          var i :| 0 <= i < |r| && r[i] == e;
          assert r[i] == (if p[i].0 == k then (k, v) else p[i]);
        }
        if e in p && e.0 != k {
          var i :| 0 <= i < |p| && p[i] == e;
          assert r[i] == e;
        }
        if e == (k, v) {
          assert r[n] == e;
        }
      }
    }
  }

  /** After `$params[$k] = $v`, reading `$k` gives `$v` and reading any other key is unchanged. */
  lemma {:induction false} PutLookup(p: Params, k: string, v: string, j: string)
    requires UniqueKeys(p)
    ensures Lookup(Put(p, k, v), j) == if j == k then Some(v) else Lookup(p, j)
  {
    if p != [] && p[0].0 != k {
      PutLookup(p[1..], k, v, j);
    }
  }

  /** `unset($params[$k])`: the key is gone and every other entry stays. */
  function Remove(p: Params, k: string): (r: Params)
    ensures !HasKey(r, k)
    ensures forall j :: j != k ==> Lookup(r, j) == Lookup(p, j)
    ensures forall e :: e in r <==> e in p && e.0 != k
    ensures UniqueKeys(p) ==> UniqueKeys(r)
    ensures !HasKey(p, k) ==> r == p
  {
    if p == [] then []
    else if p[0].0 == k then Remove(p[1..], k)
    else [p[0]] + Remove(p[1..], k)
  }

  /** Removing a key that was appended last takes away exactly that entry. */
  lemma {:induction false} RemoveAfterAppend(p: Params, k: string, v: string)
    ensures Remove(p + [(k, v)], k) == Remove(p, k)
  {
    if p != [] {
      assert (p + [(k, v)])[1..] == p[1..] + [(k, v)];
      RemoveAfterAppend(p[1..], k, v);
    } else {
      assert [] + [(k, v)] == [(k, v)];
      assert [(k, v)][1..] == [];
    }
  }

  /** Keys strictly increase in `strcmp` order. */
  predicate SortedByKey(p: Params) {
    forall i, j :: 0 <= i < j < |p| ==> Less(p[i].0, p[j].0)
  }

  /** Places `e` among the entries of a sorted array with no entry for its key. */
  function Insert(e: Entry, s: Params): (r: Params)
    requires SortedByKey(s) && !HasKey(s, e.0)
    ensures SortedByKey(r)
    ensures multiset(r) == multiset(s) + multiset{e}
  {
    if s == [] then [e]
    else if Less(e.0, s[0].0) then
      forall j | 0 <= j < |s| ensures Less(e.0, s[j].0) {
        if j > 0 { LessTransitive(e.0, s[0].0, s[j].0); }
      }
      [e] + s
    else
      LessTotal(e.0, s[0].0);
      var t := Insert(e, s[1..]);
      forall x | x in t ensures Less(s[0].0, x.0) {
        assert x in multiset(s[1..]) + multiset{e};
      }
      assert s == [s[0]] + s[1..];
      [s[0]] + t
  }

  /** `ksort($params, SORT_STRING)`: the same entries, ordered by key. */
  function KSort(p: Params): (r: Params)
    requires UniqueKeys(p)
    ensures SortedByKey(r) && UniqueKeys(r)
    ensures multiset(r) == multiset(p)
  {
    if p == [] then []
    else
      var t := KSort(p[1..]);
      assert !HasKey(t, p[0].0) by {
        forall i | 0 <= i < |t| ensures t[i].0 != p[0].0 {
          assert t[i] in multiset(p[1..]);
          var m :| 0 <= m < |p| - 1 && p[1..][m] == t[i];
          assert p[m + 1] == t[i];
        }
      }
      assert p == [p[0]] + p[1..];
      var r := Insert(p[0], t);
      SortedHasUniqueKeys(r);
      r
  }

  /** Keys in strictly increasing order are unique. */
  lemma SortedHasUniqueKeys(p: Params)
    requires SortedByKey(p)
    ensures UniqueKeys(p)
  {
    forall i, j | 0 <= i < j < |p| ensures p[i].0 != p[j].0 {
      LessIrreflexive(p[i].0);
    }
  }

  /** Sorting neither adds nor drops a pair. */
  lemma KSortEntries(p: Params)
    requires UniqueKeys(p)
    ensures Entries(KSort(p)) == Entries(p)
  {
    var a := KSort(p);
    forall e ensures e in Entries(a) <==> e in Entries(p) {
      assert e in a <==> e in multiset(a);
      assert e in p <==> e in multiset(p);
    }
  }

  /** Only the empty array holds no pair. */
  lemma EntriesEmpty(p: Params)
    ensures Entries(p) == {} <==> p == []
  {
    if p != [] {
      assert p[0] in Entries(p);
    }
  }

  lemma {:induction false} SortedByKeyUnique(a: Params, b: Params)
    requires SortedByKey(a) && SortedByKey(b) && Entries(a) == Entries(b)
    ensures a == b
    decreases |a|
  {
    if a != [] {
      assert a[0] in Entries(b);
      assert b != [];
      var j :| 0 <= j < |b| && b[j] == a[0];
      assert b[0] in Entries(a);
      var i :| 0 <= i < |a| && a[i] == b[0];
      if i > 0 && j > 0 {
        LessAsymmetric(a[0].0, b[0].0);
        assert false;
      }
      assert a[0] == b[0];
      forall e ensures e in Entries(a[1..]) <==> e in Entries(b[1..]) {
        if e in a[1..] {
          var m :| 1 <= m < |a| && a[m] == e;
          LessIrreflexive(a[0].0);
          assert e != a[0];
          assert e in Entries(a);
          assert e in b;
          assert e != b[0];
        }
        if e in b[1..] {
          var m :| 1 <= m < |b| && b[m] == e;
          LessIrreflexive(b[0].0);
          assert e != b[0];
          assert e in Entries(b);
          assert e in a;
          assert e != a[0];
        }
      }
      SortedByKeyUnique(a[1..], b[1..]);
      assert a == [a[0]] + a[1..] && b == [b[0]] + b[1..];
    } else {
      EntriesEmpty(a);
      EntriesEmpty(b);
    }
  }

  /**
   * The sorted array depends only on which key/value pairs are present, not
   * on the order in which they were inserted.
   */
  lemma KSortDependsOnlyOnEntries(p: Params, q: Params)
    requires UniqueKeys(p) && UniqueKeys(q) && Entries(p) == Entries(q)
    ensures KSort(p) == KSort(q)
  {
    KSortEntries(p);
    KSortEntries(q);
    SortedByKeyUnique(KSort(p), KSort(q));
  }

  /** Sorting keeps every lookup. */
  lemma KSortKeepsLookups(p: Params, k: string)
    requires UniqueKeys(p)
    ensures Lookup(KSort(p), k) == Lookup(p, k)
  {
    var a := KSort(p);
    SortedHasUniqueKeys(a);
    KSortEntries(p);
    LookupDependsOnlyOnEntries(a, p, k);
  }

  /** A string whose every character stands for one byte, as a PHP string's do. */
  predicate IsByteString(s: string) {
    forall i :: 0 <= i < |s| ==> s[i] as int < 256
  }

  /** Every key and value of the array is a byte string. */
  predicate ByteParams(p: Params) {
    forall e :: e in p ==> IsByteString(e.0) && IsByteString(e.1)
  }

  /** Sorting keeps the array's keys and values byte strings. */
  lemma KSortKeepsBytes(p: Params)
    requires UniqueKeys(p) && ByteParams(p)
    ensures ByteParams(KSort(p))
  {
    forall e | e in KSort(p) ensures IsByteString(e.0) && IsByteString(e.1) {
      assert e in multiset(KSort(p));
    }
  }

  predicate IsAlphaNumeric(c: char) {
    'a' <= c <= 'z' || 'A' <= c <= 'Z' || IsDigit(c)
  }

  function HexDigit(d: nat): char
    requires d < 16
  {
    "0123456789ABCDEF"[d]
  }

  /**
   * PHP's `urlencode` of one byte: letters, digits and `-_.` stay, a space
   * becomes `+`, every other byte becomes `%` and two upper-case hex digits.
   */
  function EncodeByte(c: char): (r: string)
    ensures |r| == 1 || |r| == 3
    ensures |r| == 3 <==> r[0] == '%'
    ensures '&' !in r && '=' !in r
  {
    if IsAlphaNumeric(c) || c == '-' || c == '_' || c == '.' then [c]
    else if c == ' ' then "+"
    else
      var b := c as int % 256;
      ['%', HexDigit(b / 16), HexDigit(b % 16)]
  }

  /** The sixteen hex digits are distinct. */
  lemma HexDigitInjective(i: nat, j: nat)
    requires i < 16 && j < 16 && HexDigit(i) == HexDigit(j)
    ensures i == j
  {
  }

  /** Two bytes with the same escape are the same byte. */
  lemma EncodeByteInjective(c: char, d: char)
    requires c as int < 256 && d as int < 256
    requires EncodeByte(c) == EncodeByte(d)
    ensures c == d
  {
    var e := EncodeByte(c);
    if |e| == 3 {
      var b, b' := c as int % 256, d as int % 256;
      assert e == ['%', HexDigit(b / 16), HexDigit(b % 16)];
      assert e == ['%', HexDigit(b' / 16), HexDigit(b' % 16)];
      HexDigitInjective(b / 16, b' / 16);
      HexDigitInjective(b % 16, b' % 16);
      assert b == b';
    } else if e == "+" {
      assert !IsAlphaNumeric('+');
      assert c == ' ' && d == ' ';
    } else {
      assert e == [c] && EncodeByte(d) == [d];
    }
  }

  /** No escape is a proper prefix of another: an escaped text splits one way only. */
  lemma EncodeBytePrefixFree(c: char, d: char, x: string, y: string)
    requires c as int < 256 && d as int < 256
    requires EncodeByte(c) + x == EncodeByte(d) + y
    ensures c == d && x == y
  {
    var ec, ed := EncodeByte(c), EncodeByte(d);
    assert ec[0] == (ec + x)[0] == ed[0];
    assert |ec| == |ed|;
    assert ec == (ec + x)[..|ec|] && ed == (ed + y)[..|ed|];
    EncodeByteInjective(c, d);
    assert x == (ec + x)[|ec|..] && y == (ed + y)[|ed|..];
  }

  /** `urlencode`: the separators `&` and `=` never appear in its output. */
  function UrlEncode(s: string): (r: string)
    ensures |s| <= |r| <= 3 * |s|
    ensures '&' !in r && '=' !in r
  {
    if s == [] then "" else EncodeByte(s[0]) + UrlEncode(s[1..])
  }

  /** `urlencode` loses nothing: two byte strings with the same encoding are equal. */
  lemma {:induction false} UrlEncodeInjective(s: string, t: string)
    requires IsByteString(s) && IsByteString(t)
    ensures UrlEncode(s) == UrlEncode(t) ==> s == t
  {
    if UrlEncode(s) == UrlEncode(t) && s != [] && t != [] {
      EncodeBytePrefixFree(s[0], t[0], UrlEncode(s[1..]), UrlEncode(t[1..]));
      UrlEncodeInjective(s[1..], t[1..]);
      assert s == [s[0]] + s[1..] && t == [t[0]] + t[1..];
    }
  }

  /** A text with two separator-free heads followed by the separator splits at the same place. */
  lemma SplitAtSeparator(x: string, y: string, x': string, y': string, c: char)
    requires c !in x && c !in x'
    requires x + [c] + y == x' + [c] + y'
    ensures x == x' && y == y'
  {
    var z := x + [c] + y;
    assert z[|x|] == c && z[|x'|] == c;
    assert forall i :: 0 <= i < |x| ==> z[i] == x[i];
    assert forall i :: 0 <= i < |x'| ==> z[i] == x'[i];
    assert |x| == |x'|;
    assert x == z[..|x|] && x' == z[..|x'|];
    assert y == z[|x| + 1..] && y' == z[|x'| + 1..];
  }

  function EncodePair(e: Entry): (r: string)
    ensures '=' in r && '&' !in r
  {
    var r := UrlEncode(e.0) + "=" + UrlEncode(e.1);
    assert r[|UrlEncode(e.0)|] == '=';
    r
  }

  /** A rendered `key=value` pair determines its key and its value. */
  lemma EncodePairInjective(e: Entry, f: Entry)
    requires IsByteString(e.0) && IsByteString(e.1) && IsByteString(f.0) && IsByteString(f.1)
    ensures EncodePair(e) == EncodePair(f) ==> e == f
  {
    if EncodePair(e) == EncodePair(f) {
      SplitAtSeparator(UrlEncode(e.0), UrlEncode(e.1), UrlEncode(f.0), UrlEncode(f.1), '=');
      UrlEncodeInjective(e.0, f.0);
      UrlEncodeInjective(e.1, f.1);
    }
  }

  /**
   * `http_build_query($params, '', '&')` on string values: `key=value` pairs
   * joined by `&`. It is empty exactly for the empty array and otherwise never
   * the PHP-false string "0".
   */
  function QueryString(p: Params): (r: string)
    ensures r == "" <==> p == []
    ensures p != [] ==> Truthy(r) && '=' in r
    ensures '&' in r <==> |p| > 1
  {
    if p == [] then ""
    else if |p| == 1 then EncodePair(p[0])
    else
      var r := EncodePair(p[0]) + "&" + QueryString(p[1..]);
      assert '=' in EncodePair(p[0]);
      assert r[|EncodePair(p[0])|] == '&';
      r
  }

  /** Two query strings of several pairs that are equal agree on their first pair and on the rest. */
  lemma QueryStringSplit(p: Params, q: Params)
    requires |p| > 1 && |q| > 1 && QueryString(p) == QueryString(q)
    ensures EncodePair(p[0]) == EncodePair(q[0]) && QueryString(p[1..]) == QueryString(q[1..])
  {
    SplitAtSeparator(EncodePair(p[0]), QueryString(p[1..]), EncodePair(q[0]), QueryString(q[1..]), '&');
  }

  /** The query string determines the array it was built from, order included. */
  lemma {:induction false} QueryStringInjective(p: Params, q: Params)
    requires ByteParams(p) && ByteParams(q)
    ensures QueryString(p) == QueryString(q) ==> p == q
  {
    if QueryString(p) == QueryString(q) && p != [] {
      assert q != [] && (|p| == 1 <==> |q| == 1);
      assert p[0] == q[0] by {
        assert p[0] in p && q[0] in q;
        if |p| > 1 {
          QueryStringSplit(p, q);
        }
        EncodePairInjective(p[0], q[0]);
      }
      if |p| > 1 {
        assert p[1..] == q[1..] by {
          QueryStringSplit(p, q);
          assert ByteParams(p[1..]) && ByteParams(q[1..]);
          QueryStringInjective(p[1..], q[1..]);
        }
        assert p == [p[0]] + p[1..] && q == [q[0]] + q[1..];
      }
    }
  }
}
