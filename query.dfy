/**
 * The query shapes the handlers ask of the relational store, stated over a
 * table held as a sequence of rows: the first row matching a condition
 * (`First`), the rows matching a condition (`Where`, and `Delete` as its
 * complement), ordering by a key (`Order`), and `Offset`/`Limit`.
 */
module Query {
  import opened Wrappers

  /** Every row has a strictly larger key than the rows before it. */
  ghost predicate Ascending<T>(s: seq<T>, key: T -> int) {
    forall i, j :: 0 <= i < j < |s| ==> key(s[i]) < key(s[j])
  }

  /** Every row has a strictly smaller key than the rows before it. */
  ghost predicate Descending<T>(s: seq<T>, key: T -> int) {
    forall i, j :: 0 <= i < j < |s| ==> key(s[i]) > key(s[j])
  }

  /** Index of the first row satisfying `p`, if any. */
  function Find<T>(s: seq<T>, p: T -> bool): (r: Option<nat>)
    ensures r.Some? ==> r.value < |s| && p(s[r.value])
    ensures r.Some? ==> forall j :: 0 <= j < r.value ==> !p(s[j])
    ensures r.None? <==> forall j :: 0 <= j < |s| ==> !p(s[j])
  {
    if |s| == 0 then None
    else if p(s[0]) then Some(0)
    else match Find(s[1..], p)
      case None => None
      case Some(k) => Some(k + 1)
  }

  /** The rows satisfying `keep`, in their original order. */
  function Filter<T(!new)>(s: seq<T>, keep: T -> bool): (r: seq<T>)
    ensures |r| <= |s|
    ensures forall x :: x in r <==> x in s && keep(x)
  {
    if |s| == 0 then []
    else if keep(s[0]) then [s[0]] + Filter(s[1..], keep)
    else Filter(s[1..], keep)
  }

  /** The rows in the opposite order. */
  function Reverse<T>(s: seq<T>): seq<T> {
    if |s| == 0 then [] else [s[|s| - 1]] + Reverse(s[..|s| - 1])
  }

  /** `Offset(offset)` then, when present, `Limit(limit)`. */
  function Window<T>(s: seq<T>, offset: nat, limit: Option<nat>): (r: seq<T>)
    ensures offset >= |s| ==> r == []
    ensures limit.Some? ==> |r| <= limit.value
    ensures |r| == (var rest := if offset <= |s| then |s| - offset else 0;
                    if limit.Some? && limit.value < rest then limit.value else rest)
    ensures forall i :: 0 <= i < |r| ==> offset + i < |s| && r[i] == s[offset + i]
  {
    var rest := if offset <= |s| then s[offset..] else [];
    if limit.Some? && limit.value < |rest| then rest[..limit.value] else rest
  }

  lemma {:induction false} FilterAscending<T(!new)>(s: seq<T>, keep: T -> bool, key: T -> int)
    requires Ascending(s, key)
    ensures Ascending(Filter(s, keep), key)
  {
    if |s| > 0 {
      var tail := s[1..];
      assert Ascending(tail, key) by {
        forall i, j | 0 <= i < j < |tail| ensures key(tail[i]) < key(tail[j]) {
          assert tail[i] == s[i + 1] && tail[j] == s[j + 1];
        }
      }
      FilterAscending(tail, keep, key);
      var rest := Filter(tail, keep);
      if keep(s[0]) {
        var r := [s[0]] + rest;
        forall i, j | 0 <= i < j < |r| ensures key(r[i]) < key(r[j]) {
          if i == 0 {
            assert r[j] == rest[j - 1] && rest[j - 1] in tail;
            var k :| 0 <= k < |tail| && tail[k] == r[j];
            assert s[k + 1] == r[j];
          } else {
            assert r[i] == rest[i - 1] && r[j] == rest[j - 1];
          }
        }
      }
    }
  }

  lemma {:induction false} ReverseAt<T>(s: seq<T>, i: nat)
    requires i < |s|
    ensures |Reverse(s)| == |s| && Reverse(s)[i] == s[|s| - 1 - i]
    decreases |s|
  {
    var init := s[..|s| - 1];
    if i == 0 {
      ReverseLength(init);
    } else {
      ReverseAt(init, i - 1);
    }
  }

  lemma {:induction false} ReverseLength<T>(s: seq<T>)
    ensures |Reverse(s)| == |s|
    decreases |s|
  {
    if |s| > 0 {
      ReverseLength(s[..|s| - 1]);
    }
  }

  /** Reading an ascending table backwards yields it in strictly descending order, with the same rows. */
  lemma ReverseOfAscending<T>(s: seq<T>, key: T -> int)
    requires Ascending(s, key)
    ensures |Reverse(s)| == |s|
    ensures Descending(Reverse(s), key)
    ensures forall x :: x in Reverse(s) <==> x in s
  {
    ReverseLength(s);
    var r := Reverse(s);
    forall i, j | 0 <= i < j < |r| ensures key(r[i]) > key(r[j]) {
      ReverseAt(s, i);
      ReverseAt(s, j);
    }
    forall x ensures x in r <==> x in s {
      if x in r {
        var i :| 0 <= i < |r| && r[i] == x;
        ReverseAt(s, i);
      }
      if x in s {
        var k :| 0 <= k < |s| && s[k] == x;
        ReverseAt(s, |s| - 1 - k);
      }
    }
  }

  lemma HeadIsMember<T>(s: seq<T>)
    ensures |s| > 0 ==> s[0] in s
  {
  }

  /**
   * A strictly descending order of a set of rows is unique: two such
   * listings with the same rows are the same listing.
   */
  lemma {:induction false} DescendingUnique<T>(a: seq<T>, b: seq<T>, key: T -> int)
    requires Descending(a, key) && Descending(b, key)
    requires forall x :: x in a <==> x in b
    ensures a == b
    decreases |a|
  {
    if |a| == 0 {
      HeadIsMember(b);
    } else {
      assert a[0] in b;
      assert b[0] in a;
      var k :| 0 <= k < |a| && a[k] == b[0];
      var m :| 0 <= m < |b| && b[m] == a[0];
      assert k == 0 || m == 0;
      assert a[0] == b[0];
      var ta, tb := a[1..], b[1..];
      forall x ensures x in ta <==> x in tb {
        if x in ta {
          var k :| 0 <= k < |ta| && ta[k] == x;
          assert a[k + 1] == x && key(x) < key(a[0]);
          assert x in b;
          var m :| 0 <= m < |b| && b[m] == x;
          assert m != 0;
          assert tb[m - 1] == x;
        }
        if x in tb {
          var m :| 0 <= m < |tb| && tb[m] == x;
          assert b[m + 1] == x && key(x) < key(b[0]);
          assert x in a;
          var k :| 0 <= k < |a| && a[k] == x;
          assert k != 0;
          assert ta[k - 1] == x;
        }
      }
      assert Descending(ta, key) by {
        forall i, j | 0 <= i < j < |ta| ensures key(ta[i]) > key(ta[j]) {
          assert ta[i] == a[i + 1] && ta[j] == a[j + 1];
        }
      }
      assert Descending(tb, key) by {
        forall i, j | 0 <= i < j < |tb| ensures key(tb[i]) > key(tb[j]) {
          assert tb[i] == b[i + 1] && tb[j] == b[j + 1];
        }
      }
      DescendingUnique(ta, tb, key);
      assert a == [a[0]] + ta && b == [b[0]] + tb;
    }
  }

  /** Appending a row whose key exceeds every present key keeps a table ascending. */
  lemma AppendAscending<T>(s: seq<T>, x: T, key: T -> int)
    requires Ascending(s, key)
    requires forall y <- s :: key(y) < key(x)
    ensures Ascending(s + [x], key)
  {
    var t := s + [x];
    forall i, j | 0 <= i < j < |t| ensures key(t[i]) < key(t[j]) {
      assert t[i] == s[i] && t[i] in s;
      if j < |s| { assert t[j] == s[j]; }
    }
  }

  /** Replacing a row by one with the same key keeps a table ascending. */
  lemma ReplaceAscending<T>(s: seq<T>, k: nat, x: T, key: T -> int)
    requires Ascending(s, key) && k < |s| && key(x) == key(s[k])
    ensures Ascending(s[k := x], key)
  {
    var t := s[k := x];
    forall i, j | 0 <= i < j < |t| ensures key(t[i]) < key(t[j]) {
      assert key(t[i]) == key(s[i]) && key(t[j]) == key(s[j]);
    }
  }

  /** The keys of a table's rows: the values a foreign key into it may take. */
  function Keys<T>(s: seq<T>, key: T -> int): set<int>
    decreases |s|
  {
    if |s| == 0 then {} else Keys(s[..|s| - 1], key) + {key(s[|s| - 1])}
  }

  lemma {:induction false} KeysMember<T>(s: seq<T>, key: T -> int, x: int)
    ensures x in Keys(s, key) <==> exists i :: 0 <= i < |s| && key(s[i]) == x
    decreases |s|
  {
    if |s| > 0 {
      var init := s[..|s| - 1];
      KeysMember(init, key, x);
      if exists i :: 0 <= i < |init| && key(init[i]) == x {
        var i :| 0 <= i < |init| && key(init[i]) == x;
        assert s[i] == init[i];
      }
      if exists i :: 0 <= i < |s| && key(s[i]) == x {
        var i :| 0 <= i < |s| && key(s[i]) == x;
        if i < |init| { assert init[i] == s[i]; }
      }
    }
  }

  lemma KeysOfMember<T>(s: seq<T>, key: T -> int, x: T)
    requires x in s
    ensures key(x) in Keys(s, key)
  {
    var i :| 0 <= i < |s| && s[i] == x;
    KeysMember(s, key, key(x));
  }

  lemma KeysAppend<T>(s: seq<T>, x: T, key: T -> int)
    ensures Keys(s + [x], key) == Keys(s, key) + {key(x)}
  {
    assert (s + [x])[..|s|] == s;
  }

  lemma KeysReplace<T>(s: seq<T>, k: nat, x: T, key: T -> int)
    requires k < |s| && key(x) == key(s[k])
    ensures Keys(s[k := x], key) == Keys(s, key)
  {
    var t := s[k := x];
    forall y ensures y in Keys(t, key) <==> y in Keys(s, key) {
      KeysMember(t, key, y);
      KeysMember(s, key, y);
      assert forall i :: 0 <= i < |s| ==> key(t[i]) == key(s[i]);
    }
  }
}
