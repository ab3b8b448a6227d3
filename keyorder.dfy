/** The order of `Array.prototype.sort()` without a comparator on strings:
    lexicographic on UTF-16 code units, so a character above U+FFFF (a
    surrogate pair starting at D800..DBFF) sorts before U+E000..U+FFFF.
    The sort itself is stable; it is written here as an insertion sort of
    positions. */
module KeyOrder {

  /** The UTF-16 code units of one character. */
  function CharUnits(c: char): (r: seq<int>)
    ensures 1 <= |r| <= 2
    ensures (c as int) < 0x1_0000 <==> |r| == 1
  {
    var n := c as int;
    if n < 0x1_0000 then [n]
    else [0xD800 + (n - 0x1_0000) / 0x400, 0xDC00 + (n - 0x1_0000) % 0x400]
  }

  /** The UTF-16 code units of a string. */
  function Units(s: string): seq<int> {
    if s == [] then [] else CharUnits(s[0]) + Units(s[1..])
  }

  /** Strictly before, code unit by code unit; a proper prefix comes first. */
  predicate LexLess(a: seq<int>, b: seq<int>)
    decreases |a|
  {
    |b| > 0 && (|a| == 0 || a[0] < b[0] || (a[0] == b[0] && LexLess(a[1..], b[1..])))
  }

  /** The comparison the default sort makes between two keys. */
  predicate KeyLess(a: string, b: string) {
    LexLess(Units(a), Units(b))
  }

  lemma {:induction false} LexIrreflexive(a: seq<int>)
    ensures !LexLess(a, a)
    decreases |a|
  {
    if |a| > 0 {
      LexIrreflexive(a[1..]);
    }
  }

  lemma {:induction false} LexTransitive(a: seq<int>, b: seq<int>, c: seq<int>)
    requires LexLess(a, b) && LexLess(b, c)
    ensures LexLess(a, c)
    decreases |a|
  {
    if |a| > 0 && a[0] == b[0] && b[0] == c[0] {
      LexTransitive(a[1..], b[1..], c[1..]);
    }
  }

  lemma {:induction false} LexTotal(a: seq<int>, b: seq<int>)
    requires a != b
    ensures LexLess(a, b) || LexLess(b, a)
    decreases |a|
  {
    if |a| > 0 && |b| > 0 && a[0] == b[0] {
      assert a == [a[0]] + a[1..] && b == [b[0]] + b[1..];
      LexTotal(a[1..], b[1..]);
    }
  }

  /** The first code unit tells a one-unit character from a surrogate pair,
      since a character is never itself a surrogate. */
  lemma CharUnitsPrefix(c: char, d: char, r: seq<int>, q: seq<int>)
    requires CharUnits(c) + r == CharUnits(d) + q
    ensures c == d && r == q
  {
    var cu := CharUnits(c);
    var du := CharUnits(d);
    assert cu[0] == (cu + r)[0] == (du + q)[0] == du[0];
    if |cu| == 1 && |du| == 2 {
      assert false;
    } else if |cu| == 2 && |du| == 1 {
      assert false;
    } else if |cu| == 1 {
      assert r == (cu + r)[1..] == (du + q)[1..] == q;
    } else {
      assert cu[1] == (cu + r)[1] == (du + q)[1] == du[1];
      var n := c as int - 0x1_0000;
      var m := d as int - 0x1_0000;
      assert n == (n / 0x400) * 0x400 + n % 0x400;
      assert m == (m / 0x400) * 0x400 + m % 0x400;
      assert r == (cu + r)[2..] == (du + q)[2..] == q;
    }
  }

  /** Distinct strings have distinct code units. */
  lemma {:induction false} UnitsInjective(s: string, t: string)
    requires Units(s) == Units(t)
    ensures s == t
    decreases |s|
  {
    if s != [] && t != [] {
      CharUnitsPrefix(s[0], t[0], Units(s[1..]), Units(t[1..]));
      UnitsInjective(s[1..], t[1..]);
      assert s == [s[0]] + s[1..] && t == [t[0]] + t[1..];
    }
  }

  /** `KeyLess` is a strict total order on strings. */
  lemma KeyIrreflexive(a: string)
    ensures !KeyLess(a, a)
  {
    LexIrreflexive(Units(a));
  }

  lemma KeyTransitive(a: string, b: string, c: string)
    requires KeyLess(a, b) && KeyLess(b, c)
    ensures KeyLess(a, c)
  {
    LexTransitive(Units(a), Units(b), Units(c));
  }

  lemma KeyTotal(a: string, b: string)
    requires a != b
    ensures KeyLess(a, b) || KeyLess(b, a)
  {
    if Units(a) == Units(b) {
      UnitsInjective(a, b);
    }
    LexTotal(Units(a), Units(b));
  }

  lemma KeyAsymmetric(a: string, b: string)
    requires KeyLess(a, b)
    ensures !KeyLess(b, a)
  {
    if KeyLess(b, a) {
      KeyTransitive(a, b, a);
      KeyIrreflexive(a);
    }
  }

  /** Positions `ord` list keys in non-decreasing order. */
  predicate SortedBy(keys: seq<string>, ord: seq<nat>)
    requires forall k :: 0 <= k < |ord| ==> ord[k] < |keys|
  {
    forall i, j :: 0 <= i < j < |ord| ==> !KeyLess(keys[ord[j]], keys[ord[i]])
  }

  /** Insert position x after every position whose key is not greater. */
  function Insert(keys: seq<string>, x: nat, s: seq<nat>): (r: seq<nat>)
    requires x < |keys| && forall k :: 0 <= k < |s| ==> s[k] < |keys|
    ensures |r| == |s| + 1 && forall k :: 0 <= k < |r| ==> r[k] < |keys|
    ensures r[0] == x || (s != [] && r[0] == s[0])
  {
    if s == [] then [x]
    else if KeyLess(keys[x], keys[s[0]]) then [x] + s
    else
      assert s == [s[0]] + s[1..];
      [s[0]] + Insert(keys, x, s[1..])
  }

  /** The positions 0..n-1 of `keys`, stably sorted by key. */
  function SortFirst(keys: seq<string>, n: nat): (r: seq<nat>)
    requires n <= |keys|
    ensures |r| == n && forall k :: 0 <= k < |r| ==> r[k] < |keys|
  {
    if n == 0 then [] else Insert(keys, n - 1, SortFirst(keys, n - 1))
  }

  /** `keys.sort()` as positions into `keys`. */
  function Order(keys: seq<string>): (r: seq<nat>)
    ensures |r| == |keys| && forall k :: 0 <= k < |r| ==> r[k] < |keys|
  {
    SortFirst(keys, |keys|)
  }

  function Range(n: nat): (r: seq<nat>)
    ensures |r| == n && forall k :: 0 <= k < n ==> r[k] == k
  {
    if n == 0 then [] else Range(n - 1) + [n - 1]
  }

  /** Each key is not greater than the next one. */
  predicate Ascending(keys: seq<string>, s: seq<nat>)
    requires forall k :: 0 <= k < |s| ==> s[k] < |keys|
  {
    forall k :: 0 <= k < |s| - 1 ==> !KeyLess(keys[s[k + 1]], keys[s[k]])
  }

  /** "Not greater" is transitive, since `KeyLess` is total. */
  lemma NotLessTransitive(a: string, b: string, c: string)
    requires !KeyLess(b, a) && !KeyLess(c, b)
    ensures !KeyLess(c, a)
  {
    if KeyLess(c, a) && a != b {
      KeyTotal(a, b);
      KeyTransitive(c, a, b);
    }
  }

  lemma {:induction false} AscendingSorted(keys: seq<string>, s: seq<nat>)
    requires forall k :: 0 <= k < |s| ==> s[k] < |keys|
    requires Ascending(keys, s)
    ensures SortedBy(keys, s)
    decreases |s|
  {
    if |s| > 1 {
      var t := s[1..];
      assert Ascending(keys, t) by {
        forall k | 0 <= k < |t| - 1 ensures !KeyLess(keys[t[k + 1]], keys[t[k]]) {
          assert t[k] == s[k + 1] && t[k + 1] == s[k + 2];
        }
      }
      AscendingSorted(keys, t);
      forall i, j | 0 <= i < j < |s| ensures !KeyLess(keys[s[j]], keys[s[i]]) {
        if i == 0 {
          if j > 1 {
            assert s[j] == t[j - 1] && s[1] == t[0];
            NotLessTransitive(keys[s[0]], keys[s[1]], keys[s[j]]);
          }
        } else {
          assert s[i] == t[i - 1] && s[j] == t[j - 1];
        }
      }
    }
  }

  lemma {:induction false} InsertAscending(keys: seq<string>, x: nat, s: seq<nat>)
    requires x < |keys| && forall k :: 0 <= k < |s| ==> s[k] < |keys|
    requires Ascending(keys, s)
    ensures Ascending(keys, Insert(keys, x, s))
    decreases |s|
  {
    var r := Insert(keys, x, s);
    if s == [] {
    } else if KeyLess(keys[x], keys[s[0]]) {
      KeyAsymmetric(keys[x], keys[s[0]]);
      assert r == [x] + s;
      forall k | 0 <= k < |r| - 1 ensures !KeyLess(keys[r[k + 1]], keys[r[k]]) {
        if k > 0 {
          assert r[k] == s[k - 1] && r[k + 1] == s[k];
        }
      }
    } else {
      var t := s[1..];
      assert Ascending(keys, t) by {
        forall k | 0 <= k < |t| - 1 ensures !KeyLess(keys[t[k + 1]], keys[t[k]]) {
          assert t[k] == s[k + 1] && t[k + 1] == s[k + 2];
        }
      }
      InsertAscending(keys, x, t);
      var it := Insert(keys, x, t);
      assert r == [s[0]] + it;
      assert it[0] == x || (t != [] && it[0] == t[0]);
      forall k | 0 <= k < |r| - 1 ensures !KeyLess(keys[r[k + 1]], keys[r[k]]) {
        if k > 0 {
          assert r[k] == it[k - 1] && r[k + 1] == it[k];
        }
      }
    }
  }

  lemma {:induction false} SortFirstAscending(keys: seq<string>, n: nat)
    requires n <= |keys|
    ensures Ascending(keys, SortFirst(keys, n))
  {
    if n > 0 {
      SortFirstAscending(keys, n - 1);
      InsertAscending(keys, n - 1, SortFirst(keys, n - 1));
    }
  }

  lemma {:induction false} SortFirstPositions(keys: seq<string>, n: nat)
    requires n <= |keys|
    ensures multiset(SortFirst(keys, n)) == multiset(Range(n))
  {
    if n > 0 {
      var x: nat := n - 1;
      SortFirstPositions(keys, x);
      SortFirstStep(keys, x);
      InsertPositions(keys, x, SortFirst(keys, x));
      RangeStep(x);
    }
  }

  lemma SortFirstStep(keys: seq<string>, x: nat)
    requires x < |keys|
    ensures SortFirst(keys, x + 1) == Insert(keys, x, SortFirst(keys, x))
  {
  }

  lemma RangeStep(x: nat)
    ensures multiset(Range(x + 1)) == multiset(Range(x)) + multiset{x}
  {
    assert Range(x + 1) == Range(x) + [x];
  }

  /** Inserting adds the position and keeps the others. */
  lemma {:induction false} InsertPositions(keys: seq<string>, x: nat, s: seq<nat>)
    requires x < |keys| && forall k :: 0 <= k < |s| ==> s[k] < |keys|
    ensures multiset(Insert(keys, x, s)) == multiset(s) + multiset{x}
    decreases |s|
  {
    if s != [] && !KeyLess(keys[x], keys[s[0]]) {
      InsertPositions(keys, x, s[1..]);
      assert s == [s[0]] + s[1..];
    }
  }

  /** `keys.sort()` lists every position exactly once, in key order. */
  lemma OrderSorted(keys: seq<string>)
    ensures SortedBy(keys, Order(keys))
    ensures multiset(Order(keys)) == multiset(Range(|keys|))
  {
    SortFirstAscending(keys, |keys|);
    SortFirstPositions(keys, |keys|);
    AscendingSorted(keys, Order(keys));
  }

  /** Keys already in strictly increasing order are left in place. */
  lemma {:induction false} OrderOfSorted(keys: seq<string>)
    requires forall i, j :: 0 <= i < j < |keys| ==> KeyLess(keys[i], keys[j])
    ensures Order(keys) == Range(|keys|)
  {
    SortFirstOfSorted(keys, |keys|);
  }

  lemma {:induction false} SortFirstOfSorted(keys: seq<string>, n: nat)
    requires n <= |keys|
    requires forall i, j :: 0 <= i < j < |keys| ==> KeyLess(keys[i], keys[j])
    ensures SortFirst(keys, n) == Range(n)
  {
    if n > 0 {
      SortFirstOfSorted(keys, n - 1);
      var s := Range(n - 1);
      forall k | 0 <= k < |s| ensures KeyLess(keys[s[k]], keys[n - 1]) {
        assert s[k] < n - 1;
      }
      InsertLast(keys, n - 1, s);
    }
  }

  /** A position whose key is greater than every key in `s` goes last. */
  lemma {:induction false} InsertLast(keys: seq<string>, x: nat, s: seq<nat>)
    requires x < |keys| && forall k :: 0 <= k < |s| ==> s[k] < |keys| && KeyLess(keys[s[k]], keys[x])
    ensures Insert(keys, x, s) == s + [x]
    decreases |s|
  {
    if s != [] {
      assert KeyLess(keys[s[0]], keys[x]);
      KeyAsymmetric(keys[s[0]], keys[x]);
      assert Insert(keys, x, s) == [s[0]] + Insert(keys, x, s[1..]);
      InsertLast(keys, x, s[1..]);
      assert [s[0]] + (s[1..] + [x]) == s + [x];
    }
  }
}
