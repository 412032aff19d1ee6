/** The few JavaScript string and object primitives the router relies on:
    `String.prototype.split` with a one-character separator, `indexOf`,
    the anchored one-character `replace`, and the order in which
    `Object.keys` enumerates the own keys of a plain object. */
module Js {

  /** A value that may be JavaScript's `undefined`. */
  datatype Option<T> = None | Some(value: T)

  /** `s.split(sep)` for a one-character separator: the pieces between
      separators, always at least one (`"".split("/")` is `[""]`). */
  function Split(s: string, sep: char): (r: seq<string>)
    ensures |r| >= 1
    ensures forall i :: 0 <= i < |r| ==> sep !in r[i]
    decreases |s|
  {
    if |s| == 0 then [""]
    else
      var rest := Split(s[1..], sep);
      if s[0] == sep then [""] + rest
      else [[s[0]] + rest[0]] + rest[1..]
  }

  /** `ps.join(sep)`: the inverse of `Split`. */
  function Join(ps: seq<string>, sep: char): string
  {
    if |ps| == 0 then ""
    else if |ps| == 1 then ps[0]
    else ps[0] + [sep] + Join(ps[1..], sep)
  }

  /** Joining the pieces of a split gives back the original text. */
  lemma {:induction false} SplitJoin(s: string, sep: char)
    ensures Join(Split(s, sep), sep) == s
    decreases |s|
  {
    if |s| > 0 {
      var rest := Split(s[1..], sep);
      SplitJoin(s[1..], sep);
      if s[0] == sep {
        assert Split(s, sep) == [""] + rest;
        assert Join([""] + rest, sep) == "" + [sep] + Join(rest, sep);
        assert s == [s[0]] + s[1..];
      } else if |rest| == 1 {
        assert Split(s, sep) == [[s[0]] + rest[0]];
        assert s == [s[0]] + s[1..];
      } else {
        var head := [s[0]] + rest[0];
        assert Split(s, sep) == [head] + rest[1..];
        assert ([head] + rest[1..])[1..] == rest[1..];
        assert Join([head] + rest[1..], sep) == head + [sep] + Join(rest[1..], sep);
        assert Join(rest, sep) == rest[0] + [sep] + Join(rest[1..], sep);
        assert s == [s[0]] + s[1..];
      }
    }
  }

  /** A text without the separator splits into itself alone. */
  lemma {:induction false} SplitWhole(a: string, sep: char)
    requires sep !in a
    ensures Split(a, sep) == [a]
    decreases |a|
  {
    if |a| > 0 {
      SplitWhole(a[1..], sep);
      assert [a[0]] + a[1..] == a;
    }
  }

  /** Splitting stops at the first separator. */
  lemma {:induction false} SplitAfterPiece(a: string, sep: char, b: string)
    requires sep !in a
    ensures Split(a + [sep] + b, sep) == [a] + Split(b, sep)
    decreases |a|
  {
    var s := a + [sep] + b;
    if |a| == 0 {
      assert s[0] == sep && s[1..] == b;
    } else {
      assert s[1..] == a[1..] + [sep] + b;
      SplitAfterPiece(a[1..], sep, b);
      assert [a[0]] + a[1..] == a;
    }
  }

  /** Splitting a text that starts with `c`, given the split of the rest
      as `ra + rb`. */
  lemma SplitCons(c: char, t: string, sep: char, ra: seq<string>, rb: seq<string>)
    requires Split(t, sep) == ra + rb && |ra| >= 1
    ensures Split([c] + t, sep) == (if c == sep then [""] + ra else [[c] + ra[0]] + ra[1..]) + rb
  {
    var s := [c] + t;
    assert s[0] == c && s[1..] == t;
    if c != sep {
      assert (ra + rb)[0] == ra[0] && (ra + rb)[1..] == ra[1..] + rb;
    }
  }

  /** A separator splits the text into the pieces before and after it. */
  lemma {:induction false} SplitConcat(a: string, sep: char, b: string)
    ensures Split(a + [sep] + b, sep) == Split(a, sep) + Split(b, sep)
    decreases |a|
  {
    if |a| == 0 {
      var s := a + [sep] + b;
      assert s[0] == sep && s[1..] == b;
    } else {
      SplitConcat(a[1..], sep, b);
      var ra := Split(a[1..], sep);
      assert a + [sep] + b == [a[0]] + (a[1..] + [sep] + b);
      SplitCons(a[0], a[1..] + [sep] + b, sep, ra, Split(b, sep));
      assert ra + [] == ra;
      assert a == [a[0]] + a[1..];
      SplitCons(a[0], a[1..], sep, ra, []);
    }
  }

  /** Splitting the join of separator-free pieces gives back the pieces. */
  lemma {:induction false} JoinSplit(ps: seq<string>, sep: char)
    requires |ps| >= 1
    requires forall i :: 0 <= i < |ps| ==> sep !in ps[i]
    ensures Split(Join(ps, sep), sep) == ps
    decreases |ps|
  {
    if |ps| == 1 {
      SplitWhole(ps[0], sep);
    } else {
      JoinSplit(ps[1..], sep);
      SplitAfterPiece(ps[0], sep, Join(ps[1..], sep));
      assert [ps[0]] + ps[1..] == ps;
    }
  }

  /** Position of the first `c` in `s`, or `|s|` when there is none
      (where `s.indexOf(c)` would give -1). */
  function IndexOf(s: string, c: char): (i: nat)
    ensures i <= |s|
    ensures i < |s| ==> s[i] == c
    ensures forall j :: 0 <= j < i ==> s[j] != c
    decreases |s|
  {
    if |s| == 0 then 0
    else if s[0] == c then 0
    else 1 + IndexOf(s[1..], c)
  }

  /** The first piece of a split is the text before the first separator;
      there is a second piece exactly when the separator occurs, and the
      remaining pieces are the split of the text after it. */
  lemma {:induction false} SplitAtFirst(s: string, sep: char)
    ensures Split(s, sep)[0] == s[..IndexOf(s, sep)]
    ensures |Split(s, sep)| > 1 <==> sep in s
    ensures sep in s ==> Split(s, sep)[1..] == Split(s[IndexOf(s, sep) + 1..], sep)
    decreases |s|
  {
    if |s| > 0 && s[0] != sep {
      SplitAtFirst(s[1..], sep);
      assert s[1..][..IndexOf(s[1..], sep)] == s[1..IndexOf(s, sep)];
      assert [s[0]] + s[1..IndexOf(s, sep)] == s[..IndexOf(s, sep)];
      assert sep in s <==> sep in s[1..];
      if sep in s {
        assert s[1..][IndexOf(s[1..], sep) + 1..] == s[IndexOf(s, sep) + 1..];
      }
    }
  }

  /** `s.indexOf(c) === 0`. */
  predicate StartsWith(s: string, c: char)
  {
    |s| > 0 && s[0] == c
  }

  /** `s.replace(/^c/, '')`: drop one leading `c`, if there is one. */
  function StripLeading(s: string, c: char): (r: string)
    ensures StartsWith(s, c) ==> s == [c] + r
    ensures !StartsWith(s, c) ==> r == s
  {
    if StartsWith(s, c) then s[1..] else s
  }

  // ---------------------------------------------------------------------
  // Enumeration order of `Object.keys` on a plain object: first the keys
  // that are array indices, in ascending numeric order, then every other
  // key in the order it was first inserted.

  predicate IsDigit(c: char)
  {
    '0' <= c <= '9'
  }

  /** Numeric value of a string of decimal digits. */
  function DigitsValue(s: string): nat
    requires forall i :: 0 <= i < |s| ==> IsDigit(s[i])
  {
    if |s| == 0 then 0
    else
      assert IsDigit(s[|s| - 1]);
      10 * DigitsValue(s[..|s| - 1]) + (s[|s| - 1] as int - '0' as int)
  }

  /** A canonical decimal numeral below 2^32 - 1 ("0", "7", "42"; not "07"). */
  predicate IsArrayIndex(k: string)
  {
    && |k| >= 1
    && (forall i :: 0 <= i < |k| ==> IsDigit(k[i]))
    && (|k| == 1 || k[0] != '0')
    && DigitsValue(k) < 0xFFFF_FFFF
  }

  /** Sort key of a key in the array-index group. */
  function IndexValue(k: string): nat
  {
    if IsArrayIndex(k) then DigitsValue(k) else 0
  }

  function ArrayIndices(order: seq<string>): (r: seq<string>)
    ensures forall i :: 0 <= i < |r| ==> IsArrayIndex(r[i])
  {
    if |order| == 0 then []
    else (if IsArrayIndex(order[0]) then [order[0]] else []) + ArrayIndices(order[1..])
  }

  function OtherKeys(order: seq<string>): (r: seq<string>)
    ensures forall i :: 0 <= i < |r| ==> !IsArrayIndex(r[i])
  {
    if |order| == 0 then []
    else (if IsArrayIndex(order[0]) then [] else [order[0]]) + OtherKeys(order[1..])
  }

  predicate SortedByIndex(ks: seq<string>)
  {
    forall i, j :: 0 <= i < j < |ks| ==> IndexValue(ks[i]) <= IndexValue(ks[j])
  }

  /** Insert `k` before the first key with a larger index value. */
  function InsertByIndex(k: string, ks: seq<string>): seq<string>
  {
    if |ks| == 0 then [k]
    else if IndexValue(k) <= IndexValue(ks[0]) then [k] + ks
    else [ks[0]] + InsertByIndex(k, ks[1..])
  }

  /** Insertion sort by index value (stable). */
  function SortByIndex(ks: seq<string>): seq<string>
  {
    if |ks| == 0 then []
    else InsertByIndex(ks[0], SortByIndex(ks[1..]))
  }

  /** Inserting adds exactly `k`, and puts `k` or the old head first. */
  lemma {:induction false} InsertByIndexPerm(k: string, ks: seq<string>)
    ensures multiset(InsertByIndex(k, ks)) == multiset(ks) + multiset{k}
    ensures |InsertByIndex(k, ks)| == |ks| + 1
    ensures InsertByIndex(k, ks)[0] == k || (|ks| > 0 && InsertByIndex(k, ks)[0] == ks[0])
  {
    if |ks| > 0 && IndexValue(k) > IndexValue(ks[0]) {
      InsertByIndexPerm(k, ks[1..]);
      assert ks == [ks[0]] + ks[1..];
    }
  }

  /** Inserting into a sorted sequence keeps it sorted. */
  lemma {:induction false} InsertByIndexSorted(k: string, ks: seq<string>)
    requires SortedByIndex(ks)
    ensures SortedByIndex(InsertByIndex(k, ks))
  {
    if |ks| > 0 && IndexValue(k) > IndexValue(ks[0]) {
      var tail := InsertByIndex(k, ks[1..]);
      assert SortedByIndex(ks[1..]);
      InsertByIndexSorted(k, ks[1..]);
      InsertByIndexPerm(k, ks[1..]);
      if |ks| > 1 {
        assert IndexValue(ks[0]) <= IndexValue(ks[1]);
      }
      assert IndexValue(ks[0]) <= IndexValue(tail[0]);
      InsertAfterHead(ks[0], tail);
    } else if |ks| > 0 {
      SortedCons(k, ks);
    }
  }

  lemma SortedCons(k: string, ks: seq<string>)
    requires SortedByIndex(ks) && |ks| > 0 && IndexValue(k) <= IndexValue(ks[0])
    ensures SortedByIndex([k] + ks)
  {
    InsertAfterHead(k, ks);
  }

  lemma InsertAfterHead(h: string, tail: seq<string>)
    requires SortedByIndex(tail)
    requires |tail| > 0 && IndexValue(h) <= IndexValue(tail[0])
    ensures SortedByIndex([h] + tail)
  {
    var r := [h] + tail;
    forall i, j | 0 <= i < j < |r| ensures IndexValue(r[i]) <= IndexValue(r[j]) {
      if i == 0 && j > 1 {
        assert IndexValue(tail[0]) <= IndexValue(tail[j - 1]);
      }
    }
  }

  /** The sort yields a sorted permutation of its input. */
  lemma {:induction false} SortByIndexSorted(ks: seq<string>)
    ensures SortedByIndex(SortByIndex(ks))
    ensures multiset(SortByIndex(ks)) == multiset(ks)
  {
    if |ks| > 0 {
      SortByIndexSorted(ks[1..]);
      InsertByIndexSorted(ks[0], SortByIndex(ks[1..]));
      InsertByIndexPerm(ks[0], SortByIndex(ks[1..]));
      assert ks == [ks[0]] + ks[1..];
    }
  }

  /** `Object.keys` of a plain object whose keys were inserted in `order`. */
  function OwnKeys(order: seq<string>): seq<string>
  {
    SortByIndex(ArrayIndices(order)) + OtherKeys(order)
  }

  lemma {:induction false} PartitionKeys(order: seq<string>)
    ensures multiset(ArrayIndices(order)) + multiset(OtherKeys(order)) == multiset(order)
  {
    if |order| > 0 {
      PartitionKeys(order[1..]);
      assert order == [order[0]] + order[1..];
    }
  }

  /** `Object.keys` enumerates every key exactly as often as it was inserted,
      array indices first in ascending numeric order, then the other keys. */
  lemma OwnKeysOrder(order: seq<string>)
    ensures multiset(OwnKeys(order)) == multiset(order)
    ensures forall i, j :: 0 <= i < j < |OwnKeys(order)| && IsArrayIndex(OwnKeys(order)[j])
              ==> IsArrayIndex(OwnKeys(order)[i]) && IndexValue(OwnKeys(order)[i]) <= IndexValue(OwnKeys(order)[j])
  {
    PartitionKeys(order);
    SortByIndexSorted(ArrayIndices(order));
    var r := OwnKeys(order);
    var n := |ArrayIndices(order)|;
    assert |SortByIndex(ArrayIndices(order))| == n by {
      assert |multiset(SortByIndex(ArrayIndices(order)))| == |multiset(ArrayIndices(order))|;
    }
    forall i, j | 0 <= i < j < |r| && IsArrayIndex(r[j])
      ensures IsArrayIndex(r[i]) && IndexValue(r[i]) <= IndexValue(r[j])
    {
      assert j < n;
      assert r[i] == SortByIndex(ArrayIndices(order))[i];
      assert r[i] in multiset(ArrayIndices(order));
    }
  }

  /** A single key is enumerated alone. */
  lemma OwnKeysSingle(k: string)
    ensures OwnKeys([k]) == [k]
  {
    assert [k][1..] == [];
    if IsArrayIndex(k) {
      assert ArrayIndices([k]) == [k] && OtherKeys([k]) == [];
      assert SortByIndex([k]) == InsertByIndex(k, SortByIndex([])) == [k];
    } else {
      assert ArrayIndices([k]) == [] && OtherKeys([k]) == [k];
    }
  }

  /** The same key set, enumerated. */
  lemma OwnKeysMembers(order: seq<string>, k: string)
    ensures k in OwnKeys(order) <==> k in order
  {
    OwnKeysOrder(order);
    assert k in OwnKeys(order) <==> k in multiset(OwnKeys(order));
  }

  /** Without array-index keys, `Object.keys` follows insertion order. */
  lemma {:induction false} OwnKeysInsertionOrder(order: seq<string>)
    requires forall i :: 0 <= i < |order| ==> !IsArrayIndex(order[i])
    ensures OwnKeys(order) == order
  {
    NoArrayIndices(order);
  }

  lemma {:induction false} NoArrayIndices(order: seq<string>)
    requires forall i :: 0 <= i < |order| ==> !IsArrayIndex(order[i])
    ensures ArrayIndices(order) == [] && OtherKeys(order) == order
  {
    if |order| > 0 {
      NoArrayIndices(order[1..]);
      assert order == [order[0]] + order[1..];
    }
  }

  /** A key that is not an array index is enumerated after all earlier keys. */
  lemma {:induction false} OwnKeysAppendOther(order: seq<string>, k: string)
    requires !IsArrayIndex(k)
    ensures OwnKeys(order + [k]) == OwnKeys(order) + [k]
  {
    AppendOther(order, k);
  }

  lemma {:induction false} AppendOther(order: seq<string>, k: string)
    requires !IsArrayIndex(k)
    ensures ArrayIndices(order + [k]) == ArrayIndices(order)
    ensures OtherKeys(order + [k]) == OtherKeys(order) + [k]
    decreases |order|
  {
    if |order| == 0 {
      assert ArrayIndices([k]) == ArrayIndices([k][1..]);
      assert OtherKeys([k]) == [k] + OtherKeys([k][1..]);
    } else {
      var h := if IsArrayIndex(order[0]) then [order[0]] else [];
      var g := if IsArrayIndex(order[0]) then [] else [order[0]];
      AppendOther(order[1..], k);
      var o := order + [k];
      assert o[0] == order[0] && o[1..] == order[1..] + [k];
      assert ArrayIndices(o) == h + ArrayIndices(order[1..]);
      assert OtherKeys(o) == g + (OtherKeys(order[1..]) + [k]);
      assert OtherKeys(order) == g + OtherKeys(order[1..]);
    }
  }
}
