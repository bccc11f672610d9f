/** The order of strings and the sorted listing of a set of keys. */
module KeyOrder {

  /** Lexicographic order by code point. */
  predicate Less(a: string, b: string) {
    b != "" && (a == "" || a[0] < b[0] || (a[0] == b[0] && Less(a[1..], b[1..])))
  }

  /** The strings agree up to `i`, where `a` ends or has the smaller character. */
  predicate DecidedAt(a: string, b: string, i: nat) {
    i <= |a| && i < |b| && a[..i] == b[..i] && (i == |a| || a[i] < b[i])
  }

  /** `a` stands before `b` in a dictionary. */
  ghost predicate ComesBefore(a: string, b: string) {
    exists i: nat :: DecidedAt(a, b, i)
  }

  lemma DecidedLater(a: string, b: string, i: nat)
    requires a != "" && b != "" && a[0] == b[0]
    ensures DecidedAt(a, b, i + 1) <==> DecidedAt(a[1..], b[1..], i)
  {
    if i < |a| && i + 1 < |b| {
      assert a[..i + 1] == [a[0]] + a[1..][..i] && b[..i + 1] == [b[0]] + b[1..][..i];
      assert a[..i + 1][1..] == a[1..][..i] && b[..i + 1][1..] == b[1..][..i];
    }
  }

  /** The order is that of a dictionary. */
  lemma {:induction false} LessIsComesBefore(a: string, b: string)
    ensures Less(a, b) <==> ComesBefore(a, b)
  {
    assert b != "" ==> (DecidedAt(a, b, 0) <==> a == "" || a[0] < b[0]);
    if a != "" && b != "" {
      assert forall i: nat :: DecidedAt(a, b, i) && i > 0 ==> a[..i][0] == b[..i][0];
      if a[0] == b[0] {
        LessIsComesBefore(a[1..], b[1..]);
        if ComesBefore(a[1..], b[1..]) {
          var i: nat :| DecidedAt(a[1..], b[1..], i);
          DecidedLater(a, b, i);
        }
        if ComesBefore(a, b) {
          var i: nat :| DecidedAt(a, b, i);
          DecidedLater(a, b, i - 1);
        }
      }
    }
  }

  /** `k` is `prefix` and something after it. */
  ghost predicate StartsWith(k: string, prefix: string) {
    exists rest: string :: k == prefix + rest
  }

  lemma PrefixIsStartsWith(k: string, prefix: string)
    ensures prefix <= k <==> StartsWith(k, prefix)
  {
    if prefix <= k {
      assert k == prefix + k[|prefix|..];
    }
  }

  lemma {:induction false} LessAsymmetric(a: string, b: string)
    ensures !(Less(a, b) && Less(b, a))
  {
    if a != "" && b != "" {
      LessAsymmetric(a[1..], b[1..]);
    }
  }

  lemma {:induction false} LessTransitive(a: string, b: string, c: string)
    requires Less(a, b) && Less(b, c)
    ensures Less(a, c)
  {
    if a != "" && a[0] == b[0] == c[0] {
      LessTransitive(a[1..], b[1..], c[1..]);
    }
  }

  lemma {:induction false} LessTotal(a: string, b: string)
    ensures a == b || Less(a, b) || Less(b, a)
  {
    if a != "" && b != "" {
      LessTotal(a[1..], b[1..]);
      assert a == [a[0]] + a[1..] && b == [b[0]] + b[1..];
    }
  }

  ghost predicate Ascending(keys: seq<string>) {
    forall i, j :: 0 <= i < j < |keys| ==> Less(keys[i], keys[j])
  }

  /** `keys` lists the set in ascending order, each key once. */
  ghost predicate SortedListing(keys: seq<string>, s: set<string>) {
    Ascending(keys) && forall k :: k in keys <==> k in s
  }

  lemma {:induction false} SortedListingUnique(a: seq<string>, b: seq<string>, s: set<string>)
    requires SortedListing(a, s) && SortedListing(b, s)
    ensures a == b
  {
    EmptyListing(a, s);
    EmptyListing(b, s);
    if a != [] {
      HeadIsLeast(a, b, s);
      assert a == [a[0]] + a[1..] && b == [b[0]] + b[1..];
      TailLists(a, s);
      TailLists(b, s);
      SortedListingUnique(a[1..], b[1..], s - {a[0]});
    }
  }

  lemma EmptyListing(keys: seq<string>, s: set<string>)
    requires SortedListing(keys, s)
    ensures keys == [] <==> s == {}
  {
    if keys != [] {
      assert keys[0] in s;
    }
    assert forall k :: k in s ==> k in keys;
  }

  lemma HeadIsLeast(a: seq<string>, b: seq<string>, s: set<string>)
    requires SortedListing(a, s) && SortedListing(b, s) && a != [] && b != []
    ensures a[0] == b[0]
  {
    assert a[0] in b && b[0] in a;
    var i :| 0 <= i < |a| && a[i] == b[0];
    var j :| 0 <= j < |b| && b[j] == a[0];
    if i > 0 && j > 0 {
      LessAsymmetric(a[0], b[0]);
    }
  }

  lemma TailLists(a: seq<string>, s: set<string>)
    requires SortedListing(a, s) && a != []
    ensures SortedListing(a[1..], s - {a[0]})
  {
    assert a == [a[0]] + a[1..];
    LessAsymmetric(a[0], a[0]);
  }

  /** One key into its place among ascending keys. */
  function Insert(keys: seq<string>, k: string): seq<string> {
    if keys == [] || Less(k, keys[0]) then [k] + keys else [keys[0]] + Insert(keys[1..], k)
  }

  lemma {:induction false} InsertContents(keys: seq<string>, k: string)
    ensures forall x :: x in Insert(keys, k) <==> x == k || x in keys
  {
    if keys != [] && !Less(k, keys[0]) {
      InsertContents(keys[1..], k);
      assert keys == [keys[0]] + keys[1..];
    }
  }

  lemma {:induction false} InsertAscending(keys: seq<string>, k: string)
    requires Ascending(keys) && k !in keys
    ensures Ascending(Insert(keys, k))
  {
    if keys == [] {
    } else if Less(k, keys[0]) {
      forall i | 0 <= i < |keys| ensures Less(k, keys[i]) {
        if i > 0 {
          LessTransitive(k, keys[0], keys[i]);
        }
      }
    } else {
      var rest := Insert(keys[1..], k);
      InsertAscending(keys[1..], k);
      InsertContents(keys[1..], k);
      LessTotal(k, keys[0]);
      forall i | 0 <= i < |rest| ensures Less(keys[0], rest[i]) {
        assert rest[i] in rest;
      }
    }
  }

  lemma {:induction false} SortedListingExists(s: set<string>)
    ensures exists keys :: SortedListing(keys, s)
  {
    if s == {} {
      assert SortedListing([], s);
    } else {
      var k :| k in s;
      SortedListingExists(s - {k});
      var keys :| SortedListing(keys, s - {k});
      InsertAscending(keys, k);
      InsertContents(keys, k);
      assert SortedListing(Insert(keys, k), s);
    }
  }

  /** The keys of a set in ascending order. */
  ghost function Sorted(s: set<string>): (keys: seq<string>)
    ensures SortedListing(keys, s)
  {
    SortedListingExists(s);
    var keys :| SortedListing(keys, s);
    keys
  }
}
