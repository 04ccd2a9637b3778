/**
 * The row order of a query with `.order(column, { ascending: false })`:
 * every row once, the column's values non-increasing.
 */
module Ordering {
  import opened Types

  ghost predicate Distinct(s: seq<Id>) {
    forall i, j :: 0 <= i < j < |s| ==> s[i] != s[j]
  }

  ghost predicate SortedDesc(s: seq<Id>, key: map<Id, Stamp>)
    requires forall i :: 0 <= i < |s| ==> s[i] in key
  {
    forall i, j :: 0 <= i < j < |s| ==> key[s[i]] >= key[s[j]]
  }

  /** Puts `x` before the first element whose key is not larger than its own. */
  function InsertDesc(x: Id, s: seq<Id>, key: map<Id, Stamp>): (r: seq<Id>)
    requires x in key && forall i :: 0 <= i < |s| ==> s[i] in key
    ensures |r| == |s| + 1
    ensures forall y :: y in r <==> y == x || y in s
    ensures forall i :: 0 <= i < |r| ==> r[i] in key
    ensures Distinct(s) && x !in s ==> Distinct(r)
    ensures SortedDesc(s, key) ==> SortedDesc(r, key)
  {
    if s == [] then [x]
    else if key[x] >= key[s[0]] then [x] + s
    else
      var t := InsertDesc(x, s[1..], key);
      InsertBehindHead(x, s, t, key);
      [s[0]] + t
  }

  /** The step of `InsertDesc` that keeps the head of `s` in front. */
  lemma InsertBehindHead(x: Id, s: seq<Id>, t: seq<Id>, key: map<Id, Stamp>)
    requires s != [] && x in key
    requires forall i :: 0 <= i < |s| ==> s[i] in key
    requires key[x] < key[s[0]]
    requires forall i :: 0 <= i < |t| ==> t[i] in key
    requires forall y :: y in t <==> y == x || y in s[1..]
    requires Distinct(s[1..]) && x !in s[1..] ==> Distinct(t)
    requires SortedDesc(s[1..], key) ==> SortedDesc(t, key)
    ensures Distinct(s) && x !in s ==> Distinct([s[0]] + t)
    ensures SortedDesc(s, key) ==> SortedDesc([s[0]] + t, key)
  {
    var r := [s[0]] + t;
    if Distinct(s) && x !in s {
      assert Distinct(s[1..]) by {
        forall i, j | 0 <= i < j < |s| - 1 ensures s[1..][i] != s[1..][j] {
          assert s[1..][i] == s[i + 1] && s[1..][j] == s[j + 1];
        }
      }
      assert s[0] !in s[1..] by {
        forall j | 0 <= j < |s| - 1 ensures s[1..][j] != s[0] { assert s[1..][j] == s[j + 1]; }
      }
      forall i, j | 0 <= i < j < |r| ensures r[i] != r[j] {
        if i == 0 { assert r[j] == t[j - 1] && r[j] in t; } else { assert r[i] == t[i - 1] && r[j] == t[j - 1]; }
      }
    }
    if SortedDesc(s, key) {
      assert SortedDesc(s[1..], key) by {
        forall i, j | 0 <= i < j < |s| - 1 ensures key[s[1..][i]] >= key[s[1..][j]] {
          assert s[1..][i] == s[i + 1] && s[1..][j] == s[j + 1];
        }
      }
      forall i, j | 0 <= i < j < |r| ensures key[r[i]] >= key[r[j]] {
        if i == 0 {
          var y := t[j - 1];
          assert r[j] == y && y in t;
          if y != x {
            var k :| 0 <= k < |s| - 1 && s[1..][k] == y;
            assert s[k + 1] == y;
          }
        } else {
          assert r[i] == t[i - 1] && r[j] == t[j - 1];
        }
      }
    }
  }

  /** The ids of `ids`, each once, in non-increasing order of `key`. */
  ghost function SortDesc(ids: set<Id>, key: map<Id, Stamp>): (r: seq<Id>)
    requires ids <= key.Keys
    ensures |r| == |ids|
    ensures forall y :: y in r <==> y in ids
    ensures forall i :: 0 <= i < |r| ==> r[i] in key
    ensures Distinct(r)
    ensures SortedDesc(r, key)
    decreases ids
  {
    if ids == {} then []
    else
      var x :| x in ids;
      InsertDesc(x, SortDesc(ids - {x}, key), key)
  }
}
