/** `Trie.qsMatch`: a candidate query string against a pattern query
    string, each read as a map from keys to values, keys in any order. */
module QueryString {
  import opened Js

  /** The pairs of a query string: one leading `?` removed, then split on `&`. */
  function Pairs(qs: string): (r: seq<string>)
    ensures |r| >= 1
  {
    Split(StripLeading(qs, '?'), '&')
  }

  /** `pair.split('=')[0]`: the text before the first `=`. */
  function KeyOf(pair: string): string
  {
    Split(pair, '=')[0]
  }

  /** `pair.split('=')[1]`: the text between the first and second `=`, or
      `undefined` when the pair has no `=`. */
  function ValueOf(pair: string): Option<string>
  {
    var kv := Split(pair, '=');
    if |kv| > 1 then Some(kv[1]) else None
  }

  /** The `reduce` over the pairs: `acc[key] = value`, left to right. */
  function Accumulate(acc: map<string, Option<string>>, pairs: seq<string>): map<string, Option<string>>
    decreases |pairs|
  {
    if |pairs| == 0 then acc
    else Accumulate(acc[KeyOf(pairs[0]) := ValueOf(pairs[0])], pairs[1..])
  }

  /** The key/value map of one query string. */
  function PairMap(qs: string): map<string, Option<string>>
  {
    Accumulate(map[], Pairs(qs))
  }

  /** JavaScript truthiness of a value that may be `undefined`. */
  predicate Truthy(v: Option<string>)
  {
    v.Some? && v.value != ""
  }

  /** What one pattern key demands of the candidate map. */
  predicate KeyAccepted(candidate: map<string, Option<string>>, want: Option<string>, key: string)
  {
    && key in candidate
    && Truthy(candidate[key])
    && (want == Some("*") || want == candidate[key])
  }

  /** `Trie.qsMatch(slug, pattern)`: no pattern key is rejected. */
  predicate QsMatch(slug: string, pattern: string)
  {
    var candidate := PairMap(slug);
    var wanted := PairMap(pattern);
    forall key | key in wanted :: KeyAccepted(candidate, wanted[key], key)
  }

  // ---------------------------------------------------------------------
  // The pair map read off the pairs directly: the LAST pair with a key wins.

  /** The value of the last pair whose key is `key`, if any pair has it. */
  function LastValue(pairs: seq<string>, key: string): Option<Option<string>>
  {
    if |pairs| == 0 then None
    else if KeyOf(pairs[|pairs| - 1]) == key then Some(ValueOf(pairs[|pairs| - 1]))
    else LastValue(pairs[..|pairs| - 1], key)
  }

  lemma {:induction false} AccumulateSnoc(acc: map<string, Option<string>>, pairs: seq<string>, x: string)
    ensures Accumulate(acc, pairs + [x]) == Accumulate(acc, pairs)[KeyOf(x) := ValueOf(x)]
    decreases |pairs|
  {
    if |pairs| > 0 {
      assert (pairs + [x])[1..] == pairs[1..] + [x];
      AccumulateSnoc(acc[KeyOf(pairs[0]) := ValueOf(pairs[0])], pairs[1..], x);
    }
  }

  /** The reduce keeps every key of the accumulator and of the pairs, and a
      key's value is that of the last pair carrying it (a later duplicate
      overwrites an earlier one). */
  lemma {:induction false} AccumulateLast(acc: map<string, Option<string>>, pairs: seq<string>, key: string)
    ensures key in Accumulate(acc, pairs) <==> key in acc || LastValue(pairs, key).Some?
    ensures key in Accumulate(acc, pairs) ==>
              Accumulate(acc, pairs)[key] == (if LastValue(pairs, key).Some? then LastValue(pairs, key).value else acc[key])
    decreases |pairs|
  {
    if |pairs| > 0 {
      var init, x := pairs[..|pairs| - 1], pairs[|pairs| - 1];
      assert pairs == init + [x];
      AccumulateSnoc(acc, init, x);
      AccumulateLast(acc, init, key);
    }
  }

  /** The pair map of a query string, in terms of its pairs. */
  lemma PairMapLast(qs: string, key: string)
    ensures key in PairMap(qs) <==> LastValue(Pairs(qs), key).Some?
    ensures key in PairMap(qs) ==> PairMap(qs)[key] == LastValue(Pairs(qs), key).value
  {
    AccumulateLast(map[], Pairs(qs), key);
  }

  /** What one pattern pair's key demands, read off the two pair lists. */
  predicate PairAccepted(slugPairs: seq<string>, patternPairs: seq<string>, key: string)
  {
    LastValue(patternPairs, key).Some? ==>
      && LastValue(slugPairs, key).Some?
      && Truthy(LastValue(slugPairs, key).value)
      && (LastValue(patternPairs, key).value == Some("*")
          || LastValue(patternPairs, key).value == LastValue(slugPairs, key).value)
  }

  /** `qsMatch` holds exactly when every key named in the pattern has, in the
      candidate, a non-empty value which the pattern's value is `*` or equals;
      for both strings the last pair with a key decides its value. */
  lemma QsMatchByPairs(slug: string, pattern: string)
    ensures QsMatch(slug, pattern) <==> forall key :: PairAccepted(Pairs(slug), Pairs(pattern), key)
  {
    forall key
      ensures key in PairMap(slug) <==> LastValue(Pairs(slug), key).Some?
      ensures key in PairMap(slug) ==> PairMap(slug)[key] == LastValue(Pairs(slug), key).value
      ensures key in PairMap(pattern) <==> LastValue(Pairs(pattern), key).Some?
      ensures key in PairMap(pattern) ==> PairMap(pattern)[key] == LastValue(Pairs(pattern), key).value
    {
      PairMapLast(slug, key);
      PairMapLast(pattern, key);
    }
    if QsMatch(slug, pattern) {
      forall key ensures PairAccepted(Pairs(slug), Pairs(pattern), key) {
        if LastValue(Pairs(pattern), key).Some? {
          assert KeyAccepted(PairMap(slug), PairMap(pattern)[key], key);
        }
      }
    }
    if forall key :: PairAccepted(Pairs(slug), Pairs(pattern), key) {
      forall key | key in PairMap(pattern)
        ensures KeyAccepted(PairMap(slug), PairMap(pattern)[key], key)
      {
        assert PairAccepted(Pairs(slug), Pairs(pattern), key);
      }
    }
  }

  /** A key the pattern names but no candidate pair carries rejects. */
  lemma QsMatchMissingKey(slug: string, pattern: string, key: string)
    requires LastValue(Pairs(pattern), key).Some?
    requires forall i :: 0 <= i < |Pairs(slug)| ==> KeyOf(Pairs(slug)[i]) != key
    ensures !QsMatch(slug, pattern)
  {
    PairMapLast(pattern, key);
    PairMapLast(slug, key);
    NoKeyNoValue(Pairs(slug), key);
  }

  lemma {:induction false} NoKeyNoValue(pairs: seq<string>, key: string)
    requires forall i :: 0 <= i < |pairs| ==> KeyOf(pairs[i]) != key
    ensures LastValue(pairs, key).None?
    decreases |pairs|
  {
    if |pairs| > 0 {
      NoKeyNoValue(pairs[..|pairs| - 1], key);
    }
  }

  // ---------------------------------------------------------------------
  // Order of the pairs.

  predicate DistinctKeys(pairs: seq<string>)
  {
    forall i, j :: 0 <= i < j < |pairs| ==> KeyOf(pairs[i]) != KeyOf(pairs[j])
  }

  /** With distinct keys, the value for a key is that of the one pair holding it. */
  lemma {:induction false} LastValueUnique(pairs: seq<string>, key: string)
    requires DistinctKeys(pairs)
    ensures LastValue(pairs, key).Some? <==> exists x :: x in pairs && KeyOf(x) == key
    ensures forall x :: x in pairs && KeyOf(x) == key ==> LastValue(pairs, key) == Some(ValueOf(x))
    decreases |pairs|
  {
    if |pairs| > 0 {
      var init, last := pairs[..|pairs| - 1], pairs[|pairs| - 1];
      assert pairs == init + [last];
      assert DistinctKeys(init);
      LastValueUnique(init, key);
      forall x | x in init
        ensures KeyOf(x) != KeyOf(last)
      {
        var i :| 0 <= i < |init| && init[i] == x;
        assert pairs[i] == x;
      }
    }
  }

  /** Permuting pairs with distinct keys leaves the pair map as it was. */
  lemma PairMapPermutation(s1: string, s2: string)
    requires multiset(Pairs(s1)) == multiset(Pairs(s2))
    requires DistinctKeys(Pairs(s1))
    ensures PairMap(s1) == PairMap(s2)
  {
    var p1, p2 := Pairs(s1), Pairs(s2);
    assert forall x :: x in p1 <==> x in p2 by {
      forall x ensures x in p1 <==> x in p2 {
        assert x in p1 <==> x in multiset(p1);
        assert x in p2 <==> x in multiset(p2);
      }
    }
    DistinctKeysPermutation(p1, p2);
    forall key ensures (key in PairMap(s1) <==> key in PairMap(s2))
      && (key in PairMap(s1) ==> PairMap(s1)[key] == PairMap(s2)[key])
    {
      PairMapLast(s1, key);
      PairMapLast(s2, key);
      LastValueUnique(p1, key);
      LastValueUnique(p2, key);
    }
  }

  lemma DistinctKeysPermutation(p1: seq<string>, p2: seq<string>)
    requires multiset(p1) == multiset(p2)
    requires DistinctKeys(p1)
    ensures DistinctKeys(p2)
  {
    forall i, j | 0 <= i < j < |p2| ensures KeyOf(p2[i]) != KeyOf(p2[j]) {
      assert p2[i] in multiset(p1) && p2[j] in multiset(p1);
      var a :| 0 <= a < |p1| && p1[a] == p2[i];
      var b :| 0 <= b < |p1| && p1[b] == p2[j];
      if p2[i] == p2[j] {
        CountTwo(p2, i, j);
        CountAtMostOne(p1, p2[i]);
      } else if a < b {
        assert KeyOf(p1[a]) != KeyOf(p1[b]);
      } else {
        assert KeyOf(p1[b]) != KeyOf(p1[a]);
      }
    }
  }

  /** With distinct keys no pair occurs twice. */
  lemma {:induction false} CountAtMostOne(p: seq<string>, x: string)
    requires DistinctKeys(p)
    ensures multiset(p)[x] <= 1
    decreases |p|
  {
    if |p| > 0 {
      assert p == [p[0]] + p[1..];
      assert DistinctKeys(p[1..]);
      CountAtMostOne(p[1..], x);
      if p[0] == x {
        assert forall k :: 0 <= k < |p[1..]| ==> p[1..][k] != x by {
          forall k | 0 <= k < |p[1..]| ensures p[1..][k] != x {
            assert KeyOf(p[0]) != KeyOf(p[k + 1]);
          }
        }
        assert x !in p[1..];
      }
    }
  }

  lemma CountTwo(p: seq<string>, i: nat, j: nat)
    requires i < j < |p| && p[i] == p[j]
    ensures multiset(p)[p[i]] >= 2
  {
    assert p == p[..i] + [p[i]] + p[i + 1..j] + [p[j]] + p[j + 1..];
  }

  /** `qsMatch` does not depend on the order of `&`-pairs, on either side,
      when the keys on that side are distinct. */
  lemma QsMatchOrderInsensitive(slug1: string, slug2: string, pattern1: string, pattern2: string)
    requires multiset(Pairs(slug1)) == multiset(Pairs(slug2)) && DistinctKeys(Pairs(slug1))
    requires multiset(Pairs(pattern1)) == multiset(Pairs(pattern2)) && DistinctKeys(Pairs(pattern1))
    ensures QsMatch(slug1, pattern1) == QsMatch(slug2, pattern2)
  {
    PairMapPermutation(slug1, slug2);
    PairMapPermutation(pattern1, pattern2);
  }

  // ---------------------------------------------------------------------
  // Extra candidate pairs.

  lemma {:induction false} LastValueAppend(pairs: seq<string>, extra: seq<string>, key: string)
    requires forall i :: 0 <= i < |extra| ==> KeyOf(extra[i]) != key
    ensures LastValue(pairs + extra, key) == LastValue(pairs, key)
    decreases |extra|
  {
    if |extra| > 0 {
      var all, e := pairs + extra, extra[..|extra| - 1];
      assert all[..|all| - 1] == pairs + e;
      assert all[|all| - 1] == extra[|extra| - 1];
      assert KeyOf(extra[|extra| - 1]) != key;
      assert LastValue(all, key) == LastValue(pairs + e, key);
      assert forall i :: 0 <= i < |e| ==> e[i] == extra[i];
      LastValueAppend(pairs, e, key);
    } else {
      assert pairs + extra == pairs;
    }
  }

  lemma PairsAppend(slug: string, extra: seq<string>)
    requires |extra| >= 1
    requires forall i :: 0 <= i < |extra| ==> '&' !in extra[i]
    ensures Pairs(slug + "&" + Join(extra, '&')) == Pairs(slug) + extra
  {
    var longer := slug + "&" + Join(extra, '&');
    assert longer == slug + ['&'] + Join(extra, '&');
    assert StripLeading(longer, '?') == StripLeading(slug, '?') + ['&'] + Join(extra, '&');
    SplitConcat(StripLeading(slug, '?'), '&', Join(extra, '&'));
    JoinSplit(extra, '&');
  }

  /** Appending candidate pairs whose keys the pattern does not name never
      turns a match into a mismatch. */
  lemma QsMatchExtraPairs(slug: string, extra: seq<string>, pattern: string)
    requires QsMatch(slug, pattern)
    requires |extra| >= 1
    requires forall i :: 0 <= i < |extra| ==> '&' !in extra[i] && KeyOf(extra[i]) !in PairMap(pattern)
    ensures QsMatch(slug + "&" + Join(extra, '&'), pattern)
  {
    var longer := slug + "&" + Join(extra, '&');
    PairsAppend(slug, extra);
    forall key | key in PairMap(pattern)
      ensures KeyAccepted(PairMap(longer), PairMap(pattern)[key], key)
    {
      PairMapLast(slug, key);
      PairMapLast(longer, key);
      LastValueAppend(Pairs(slug), extra, key);
    }
  }

  /** A query string matches itself exactly when each of its keys ends up
      with a non-empty value. */
  lemma QsMatchItself(qs: string)
    ensures QsMatch(qs, qs) <==> forall key | key in PairMap(qs) :: Truthy(PairMap(qs)[key])
  {
  }
}
