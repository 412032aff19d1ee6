/** `Trie.slugify`: a route or request path becomes its `/`-separated path
    segments, followed by one query token when the text holds a `?`. */
module Tokenizer {
  import opened Js

  /** The token made of the raw query string, `qs ? '?' + qs : qs`: an empty
      query string stays the empty string, without its `?`. */
  function QueryToken(qs: string): string
  {
    if qs == "" then "" else "?" + qs
  }

  /** `Trie.slugify(route)`. Only the first two `?`-pieces are looked at, so
      text after a second `?` is dropped. */
  function Slugify(route: string): (r: seq<string>)
    ensures |r| >= 1
  {
    var parts := Split(route, '?');
    Split(StripLeading(parts[0], '/'), '/')
      + (if |parts| > 1 then [QueryToken(parts[1])] else [])
  }

  /** The text before the first `?`. */
  function PathPart(route: string): string
  {
    route[..IndexOf(route, '?')]
  }

  /** The text between the first `?` and the next `?` (or the end). */
  function QueryPart(route: string): string
    requires '?' in route
  {
    var rest := route[IndexOf(route, '?') + 1..];
    rest[..IndexOf(rest, '?')]
  }

  /** How many of the tokens are path segments. */
  function PathTokenCount(route: string): int
  {
    |Slugify(route)| - (if '?' in route then 1 else 0)
  }

  /** The tokens of `route`: at least one path segment, the segments joined
      by `/` give the text before the first `?` without one leading `/`, no
      segment holds `/` or `?`, and when the route holds a `?` exactly one
      more token follows, built from the text up to the second `?`. */
  lemma {:induction false} SlugifyShape(route: string)
    ensures PathTokenCount(route) >= 1
    ensures Join(Slugify(route)[..PathTokenCount(route)], '/') == StripLeading(PathPart(route), '/')
    ensures forall i :: 0 <= i < PathTokenCount(route) ==>
              '/' !in Slugify(route)[i] && '?' !in Slugify(route)[i]
    ensures '?' in route ==>
              && PathTokenCount(route) == |Slugify(route)| - 1
              && Slugify(route)[PathTokenCount(route)] == QueryToken(QueryPart(route))
    ensures '?' !in route ==> PathTokenCount(route) == |Slugify(route)|
  {
    var parts := Split(route, '?');
    SplitAtFirst(route, '?');
    var path := StripLeading(parts[0], '/');
    var segs := Split(path, '/');
    SplitJoin(path, '/');
    var r := Slugify(route);
    assert r[..|segs|] == segs;
    assert parts[0] == PathPart(route);
    forall i | 0 <= i < |segs| ensures '?' !in segs[i] {
      NoCharInPiece(path, '/', i, '?');
    }
    if '?' in route {
      var rest := route[IndexOf(route, '?') + 1..];
      SplitAtFirst(rest, '?');
      assert parts[1] == Split(rest, '?')[0];
    }
  }

  /** A character absent from the text is absent from every piece of it. */
  lemma {:induction false} NoCharInPiece(s: string, sep: char, i: nat, c: char)
    requires c !in s
    requires i < |Split(s, sep)|
    ensures c !in Split(s, sep)[i]
    decreases |s|
  {
    if |s| > 0 {
      assert forall j :: 0 <= j < |s[1..]| ==> s[1..][j] == s[j + 1];
      var rest := Split(s[1..], sep);
      if s[0] == sep {
        if i > 0 { NoCharInPiece(s[1..], sep, i - 1, c); }
      } else if i == 0 {
        NoCharInPiece(s[1..], sep, 0, c);
        assert Split(s, sep)[0] == [s[0]] + rest[0];
      } else {
        NoCharInPiece(s[1..], sep, i, c);
      }
    }
  }

  /** Round trip: segments free of `/` and `?`, written as a path with a
      leading `/`, tokenize back to themselves. */
  lemma SlugifyPath(segs: seq<string>)
    requires |segs| >= 1
    requires forall i :: 0 <= i < |segs| ==> '/' !in segs[i] && '?' !in segs[i]
    ensures Slugify("/" + Join(segs, '/')) == segs
  {
    var route := "/" + Join(segs, '/');
    NoCharInJoin(segs, '/', '?');
    assert '?' !in route;
    SplitWhole(route, '?');
    assert StripLeading(route, '/') == Join(segs, '/');
    JoinSplit(segs, '/');
  }

  /** Round trip with a query string: the query token comes last. */
  lemma SlugifyPathQuery(segs: seq<string>, qs: string)
    requires |segs| >= 1
    requires forall i :: 0 <= i < |segs| ==> '/' !in segs[i] && '?' !in segs[i]
    requires '?' !in qs
    ensures Slugify("/" + Join(segs, '/') + "?" + qs) == segs + [QueryToken(qs)]
  {
    var path := "/" + Join(segs, '/');
    NoCharInJoin(segs, '/', '?');
    assert '?' !in path;
    SplitAfterPiece(path, '?', qs);
    assert path + "?" + qs == path + ['?'] + qs;
    SplitWhole(qs, '?');
    assert StripLeading(path, '/') == Join(segs, '/');
    JoinSplit(segs, '/');
  }

  lemma {:induction false} NoCharInJoin(ps: seq<string>, sep: char, c: char)
    requires c != sep
    requires forall i :: 0 <= i < |ps| ==> c !in ps[i]
    ensures c !in Join(ps, sep)
    decreases |ps|
  {
    if |ps| > 1 {
      NoCharInJoin(ps[1..], sep, c);
    }
  }
}
