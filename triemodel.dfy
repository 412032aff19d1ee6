/** The trie as a value: what a `Trie` node holds, with its children as
    values instead of objects. A node is named by its address, the sequence
    of edge keys leading to it from the root; the tree owns every node once,
    so the address is the node's identity. `Define` and `Match` are the
    specifications of the object-level `Trie.define` and `Trie.match`. */
module TrieModel {
  import opened Js
  import opened Tokenizer
  import opened QueryString
  import opened Classifier

  /** One node: status and pattern from `parse`, the route stamped on it by
      `define` (`path`), the keys of `edges` in insertion order, and the
      children by raw token. */
  datatype Node = Node(
    status: bv8,
    pattern: string,
    path: Option<string>,
    order: seq<string>,
    edges: map<string, Node>)

  /** A node as `new Trie(options)` creates it. */
  function Fresh(o: Options): Node
  {
    Node(o.status, o.pattern, None, [], map[])
  }

  /** The root, `new Trie()`: status and pattern are unset, modelled as 0 and "". */
  function Root(): Node
  {
    Fresh(Options(0, ""))
  }

  function OptionsOf(n: Node): Options
  {
    Options(n.status, n.pattern)
  }

  predicate Distinct(s: seq<string>)
  {
    forall i, j :: 0 <= i < j < |s| ==> s[i] != s[j]
  }

  /** The insertion order lists every edge key exactly once. */
  predicate LocalWF(n: Node)
  {
    && Distinct(n.order)
    && (forall k | k in n.order :: k in n.edges)
    && (forall k | k in n.edges :: k in n.order)
  }

  /** A node without children has an empty insertion order. */
  lemma NoEdgesNoOrder(n: Node)
    requires LocalWF(n) && n.edges == map[]
    ensures n.order == []
  {
    HeadIn(n.order);
  }

  lemma HeadIn(s: seq<string>)
    ensures |s| > 0 ==> s[0] in s
  {
  }

  predicate WF(n: Node)
  {
    LocalWF(n) && forall k | k in n.edges :: WF(n.edges[k])
  }

  /** Every child carries the status and pattern `parse` gives its key. */
  predicate Classified(n: Node)
  {
    forall k | k in n.edges :: OptionsOf(n.edges[k]) == Parse(k) && Classified(n.edges[k])
  }

  // ---------------------------------------------------------------------
  // Registration.

  /** `_define(slugs)` followed by `def.path = route`: follow or lazily create
      the edge of each token, in order, and stamp the route on the last node. */
  function Define(n: Node, slugs: seq<string>, route: string): Node
    decreases |slugs|
  {
    if |slugs| == 0 then n.(path := Some(route))
    else
      var key := slugs[0];
      var child := if key in n.edges then n.edges[key] else Fresh(Parse(key));
      n.(order := if key in n.edges then n.order else n.order + [key],
         edges := n.edges[key := Define(child, slugs[1..], route)])
  }

  /** One step of `_define`: create the edge for the first token if it is
      missing, then define the remaining tokens below it. */
  lemma DefineUnfold(n: Node, slugs: seq<string>, route: string, m: Node)
    requires |slugs| > 0
    requires m == if slugs[0] in n.edges then n
                  else n.(order := n.order + [slugs[0]], edges := n.edges[slugs[0] := Fresh(Parse(slugs[0]))])
    ensures Define(n, slugs, route) == m.(edges := m.edges[slugs[0] := Define(m.edges[slugs[0]], slugs[1..], route)])
  {
    var key := slugs[0];
    if key !in n.edges {
      var d := Define(Fresh(Parse(key)), slugs[1..], route);
      assert m.edges[key] == Fresh(Parse(key));
      assert m.edges[key := d] == n.edges[key := d];
    }
  }

  /** The node at an address, if there is one. */
  function NodeAt(n: Node, a: seq<string>): Option<Node>
    decreases |a|
  {
    if |a| == 0 then Some(n)
    else if a[0] in n.edges then NodeAt(n.edges[a[0]], a[1..])
    else None
  }

  /** The route stamped on the node at an address (`None` if no node or no route). */
  function PathAt(n: Node, a: seq<string>): Option<string>
  {
    if NodeAt(n, a).Some? then NodeAt(n, a).value.path else None
  }

  predicate IsPrefix(a: seq<string>, s: seq<string>)
  {
    |a| <= |s| && s[..|a|] == a
  }

  /** The registered node of `define` has exactly the tokens as its address
      and carries the route; every other address keeps the route it had. */
  lemma {:induction false} DefinePathAt(n: Node, slugs: seq<string>, route: string, a: seq<string>)
    ensures PathAt(Define(n, slugs, route), a) == if a == slugs then Some(route) else PathAt(n, a)
    decreases |slugs|
  {
    var d := Define(n, slugs, route);
    if |slugs| == 0 {
      if |a| > 0 {
        assert NodeAt(d, a) == NodeAt(n, a);
      }
    } else if |a| == 0 {
    } else {
      var key := slugs[0];
      var child := if key in n.edges then n.edges[key] else Fresh(Parse(key));
      var dc := Define(child, slugs[1..], route);
      assert d.edges == n.edges[key := dc];
      if a[0] != key {
        assert NodeAt(d, a) == NodeAt(n, a);
      } else {
        DefinePathAt(child, slugs[1..], route, a[1..]);
        assert NodeAt(d, a) == NodeAt(dc, a[1..]);
        assert a == slugs <==> a[1..] == slugs[1..] by {
          assert a == [a[0]] + a[1..];
          assert slugs == [slugs[0]] + slugs[1..];
        }
        if key in n.edges {
          assert NodeAt(n, a) == NodeAt(child, a[1..]);
        } else {
          assert NodeAt(n, a) == None;
          assert PathAt(child, a[1..]) == None;
        }
      }
    }
  }

  /** After `define`, the nodes are the old ones plus those along the tokens. */
  lemma {:induction false} DefineHas(n: Node, slugs: seq<string>, route: string, a: seq<string>)
    ensures NodeAt(Define(n, slugs, route), a).Some? <==> NodeAt(n, a).Some? || IsPrefix(a, slugs)
    decreases |slugs|
  {
    var d := Define(n, slugs, route);
    if |slugs| == 0 {
      if |a| > 0 {
        assert NodeAt(d, a) == NodeAt(n, a);
      }
    } else if |a| > 0 {
      var key := slugs[0];
      assert IsPrefix(a, slugs) <==> a[0] == key && IsPrefix(a[1..], slugs[1..]);
      if a[0] != key {
        assert NodeAt(d, a) == NodeAt(n, a);
      } else if key in n.edges {
        DefineHas(n.edges[key], slugs[1..], route, a[1..]);
      } else {
        DefineHas(Fresh(Parse(key)), slugs[1..], route, a[1..]);
      }
    }
  }

  /** No node off the token path changes: a node whose address is not a
      prefix of the tokens is the same node, with the same subtree. */
  lemma {:induction false} DefineOffPath(n: Node, slugs: seq<string>, route: string, a: seq<string>)
    requires !IsPrefix(a, slugs)
    ensures NodeAt(Define(n, slugs, route), a) == NodeAt(n, a)
    decreases |slugs|
  {
    var d := Define(n, slugs, route);
    if |slugs| == 0 {
      assert |a| > 0;
    } else {
      var key := slugs[0];
      assert |a| > 0;
      if a[0] == key {
        assert !IsPrefix(a[1..], slugs[1..]);
        if key in n.edges {
          DefineOffPath(n.edges[key], slugs[1..], route, a[1..]);
        } else {
          DefineOffPath(Fresh(Parse(key)), slugs[1..], route, a[1..]);
          assert |a| > 1;
        }
      }
    }
  }

  /** Along the tokens, an existing node keeps its status, pattern and edges;
      its insertion order grows by the next token only when that edge was
      missing, and only the last node's route changes. */
  lemma {:induction false} DefineAlongPath(n: Node, slugs: seq<string>, route: string, i: nat)
    requires i <= |slugs| && NodeAt(n, slugs[..i]).Some?
    ensures NodeAt(Define(n, slugs, route), slugs[..i]).Some?
    ensures var old_ := NodeAt(n, slugs[..i]).value;
            var new_ := NodeAt(Define(n, slugs, route), slugs[..i]).value;
            && OptionsOf(new_) == OptionsOf(old_)
            && old_.edges.Keys <= new_.edges.Keys
            && new_.order == (if i < |slugs| && slugs[i] !in old_.edges then old_.order + [slugs[i]] else old_.order)
            && new_.path == (if i == |slugs| then Some(route) else old_.path)
    decreases |slugs|
  {
    if i > 0 {
      var key := slugs[0];
      assert slugs[..i] == [key] + slugs[1..][..i - 1];
      assert key in n.edges;
      DefineAlongPath(n.edges[key], slugs[1..], route, i - 1);
    }
  }

  /** Registering a route a second time changes nothing. */
  lemma {:induction false} DefineIdempotent(n: Node, slugs: seq<string>, route: string)
    ensures Define(Define(n, slugs, route), slugs, route) == Define(n, slugs, route)
    decreases |slugs|
  {
    if |slugs| > 0 {
      var key := slugs[0];
      var child := if key in n.edges then n.edges[key] else Fresh(Parse(key));
      DefineIdempotent(child, slugs[1..], route);
    }
  }

  lemma {:induction false} DefineWF(n: Node, slugs: seq<string>, route: string)
    requires WF(n)
    ensures WF(Define(n, slugs, route))
    decreases |slugs|
  {
    if |slugs| > 0 {
      var key := slugs[0];
      var child := if key in n.edges then n.edges[key] else Fresh(Parse(key));
      DefineWF(child, slugs[1..], route);
      var d := Define(n, slugs, route);
      assert LocalWF(d) by {
        if key !in n.edges {
          assert key !in n.order;
        }
      }
    }
  }

  /** Every node `define` creates gets `parse` of its key. */
  lemma {:induction false} DefineClassified(n: Node, slugs: seq<string>, route: string)
    requires Classified(n)
    ensures Classified(Define(n, slugs, route))
    ensures OptionsOf(Define(n, slugs, route)) == OptionsOf(n)
    decreases |slugs|
  {
    if |slugs| > 0 {
      var key := slugs[0];
      var child := if key in n.edges then n.edges[key] else Fresh(Parse(key));
      DefineClassified(child, slugs[1..], route);
    }
  }

  lemma {:induction false} DistinctCard(s: seq<string>)
    requires Distinct(s)
    ensures |set k | k in s| == |s|
    decreases |s|
  {
    if |s| > 0 {
      var init := s[..|s| - 1];
      assert Distinct(init);
      DistinctCard(init);
      assert (set k | k in s) == (set k | k in init) + {s[|s| - 1]} by {
        assert s == init + [s[|s| - 1]];
      }
      assert s[|s| - 1] !in init;
    }
  }

  /** The number of edges is the length of the insertion order (`prefixes`). */
  lemma EdgeCount(n: Node)
    requires LocalWF(n)
    ensures |n.edges| == |n.order|
  {
    DistinctCard(n.order);
    assert n.edges.Keys == set k | k in n.order;
  }

  /** `define` leaves a node's own status and pattern alone. */
  lemma {:induction false} DefineOptions(n: Node, slugs: seq<string>, route: string)
    ensures OptionsOf(Define(n, slugs, route)) == OptionsOf(n)
  {
  }

  // ---------------------------------------------------------------------
  // Lookup.

  /** `Trie.matchSlug(slug, this.edges[k])`: the child under `k` accepts `slug`. */
  predicate Accepts(n: Node, k: string, slug: string, rx: RegexTest)
  {
    k in n.edges && MatchSlug(slug, OptionsOf(n.edges[k]), rx)
  }

  /** `n.status & STATUS.PAT_TRAILING_WILDCARD` for the child under `k`. */
  predicate IsTrailing(n: Node, k: string)
  {
    k in n.edges && HasTrailingBit(n.edges[k].status)
  }

  /** The position `.find` stops at when it looks through the children under
      `keys` for one accepting `slug`; `|keys|` when none does. */
  function FindEdge(n: Node, keys: seq<string>, slug: string, rx: RegexTest): (i: nat)
    ensures i <= |keys|
    ensures forall j :: 0 <= j < i ==> !Accepts(n, keys[j], slug, rx)
    ensures i < |keys| ==> Accepts(n, keys[i], slug, rx)
    decreases |keys|
  {
    if |keys| == 0 then 0
    else if Accepts(n, keys[0], slug, rx) then 0
    else 1 + FindEdge(n, keys[1..], slug, rx)
  }

  /** The position of the first child under `keys` with the trailing-wildcard
      bit; `|keys|` when there is none. */
  function FindTrailing(n: Node, keys: seq<string>): (i: nat)
    ensures i <= |keys|
    ensures forall j :: 0 <= j < i ==> !IsTrailing(n, keys[j])
    ensures i < |keys| ==> IsTrailing(n, keys[i])
    decreases |keys|
  {
    if |keys| == 0 then 0
    else if IsTrailing(n, keys[0]) then 0
    else 1 + FindTrailing(n, keys[1..])
  }

  /** The contract of `FindEdge` pins it down: the first accepting position. */
  lemma FindEdgeIs(n: Node, keys: seq<string>, slug: string, rx: RegexTest, i: nat)
    requires i <= |keys|
    requires forall j :: 0 <= j < i ==> !Accepts(n, keys[j], slug, rx)
    requires i < |keys| ==> Accepts(n, keys[i], slug, rx)
    ensures FindEdge(n, keys, slug, rx) == i
  {
  }

  lemma FindTrailingIs(n: Node, keys: seq<string>, i: nat)
    requires i <= |keys|
    requires forall j :: 0 <= j < i ==> !IsTrailing(n, keys[j])
    requires i < |keys| ==> IsTrailing(n, keys[i])
    ensures FindTrailing(n, keys) == i
  {
  }

  /** `_match(slugs)`: the address of the matched node, `None` for `null`.
      Each token commits to the first accepting child in `Object.keys` order;
      on the last token the first trailing-wildcard grandchild wins, else the
      child itself if its route is a non-empty string. */
  function Match(n: Node, slugs: seq<string>, rx: RegexTest): (r: Option<seq<string>>)
    ensures r.Some? ==> NodeAt(n, r.value).Some?
    decreases |slugs|
  {
    if |slugs| == 0 then None
    else
      var keys := OwnKeys(n.order);
      var i := FindEdge(n, keys, slugs[0], rx);
      if i == |keys| then None
      else
        var k := keys[i];
        var child := n.edges[k];
        if |slugs| > 1 then
          match Match(child, slugs[1..], rx)
          case None => None
          case Some(a) => Some([k] + a)
        else
          var ckeys := OwnKeys(child.order);
          var j := FindTrailing(child, ckeys);
          if j < |ckeys| then
            assert NodeAt(child, [ckeys[j]]) == NodeAt(child.edges[ckeys[j]], []);
            Some([k, ckeys[j]])
          else if Truthy(child.path) then Some([k])
          else None
  }

  /** `a` is an accepting descent for `slugs`: every edge accepts its token,
      and after the last token either the node reached carries a non-empty
      route, or `a` takes one more step, to a trailing-wildcard child. */
  predicate Matched(n: Node, a: seq<string>, slugs: seq<string>, rx: RegexTest)
    decreases |slugs|
  {
    && |slugs| >= 1 && |a| >= 1
    && Accepts(n, a[0], slugs[0], rx)
    && if |slugs| == 1 then
         || (|a| == 1 && Truthy(n.edges[a[0]].path))
         || (|a| == 2 && IsTrailing(n.edges[a[0]], a[1]))
       else Matched(n.edges[a[0]], a[1..], slugs[1..], rx)
  }

  /** Every match is an accepting descent. */
  lemma {:induction false} MatchSound(n: Node, slugs: seq<string>, rx: RegexTest)
    requires Match(n, slugs, rx).Some?
    ensures Matched(n, Match(n, slugs, rx).value, slugs, rx)
    decreases |slugs|
  {
    var keys := OwnKeys(n.order);
    var k := keys[FindEdge(n, keys, slugs[0], rx)];
    if |slugs| > 1 {
      MatchSound(n.edges[k], slugs[1..], rx);
      assert ([k] + Match(n.edges[k], slugs[1..], rx).value)[1..] == Match(n.edges[k], slugs[1..], rx).value;
    }
  }

  /** One step of the descent, when an edge accepts the first of several tokens. */
  lemma MatchDescend(n: Node, slugs: seq<string>, rx: RegexTest)
    requires |slugs| > 1
    requires FindEdge(n, OwnKeys(n.order), slugs[0], rx) < |OwnKeys(n.order)|
    ensures var k := OwnKeys(n.order)[FindEdge(n, OwnKeys(n.order), slugs[0], rx)];
            var m := Match(n.edges[k], slugs[1..], rx);
            Match(n, slugs, rx) == if m.Some? then Some([k] + m.value) else None
  {
  }

  // ---------------------------------------------------------------------
  // A router built by a sequence of `define` calls.

  /** The trie after `define` of each route in turn on a `new Trie()`. */
  function Build(routes: seq<string>): Node
  {
    if |routes| == 0 then Root()
    else
      var r := routes[|routes| - 1];
      Define(Build(routes[..|routes| - 1]), Slugify(r), r)
  }

  lemma BuildStep(routes: seq<string>, route: string, tokens: seq<string>)
    requires Slugify(route) == tokens
    ensures Build(routes + [route]) == Define(Build(routes), tokens, route)
  {
    assert (routes + [route])[..|routes|] == routes;
  }

  /** The last of `routes` whose tokens are `a`. */
  function LastWith(routes: seq<string>, a: seq<string>): (r: Option<string>)
    ensures r.Some? ==> r.value in routes && Slugify(r.value) == a
    ensures r.None? <==> forall i :: 0 <= i < |routes| ==> Slugify(routes[i]) != a
  {
    if |routes| == 0 then None
    else if Slugify(routes[|routes| - 1]) == a then Some(routes[|routes| - 1])
    else LastWith(routes[..|routes| - 1], a)
  }

  /** The route `LastWith` finds is the last one with those tokens: it sits
      at a position after which no route has them. */
  lemma {:induction false} LastWithLast(routes: seq<string>, a: seq<string>)
    requires LastWith(routes, a).Some?
    ensures exists i :: 0 <= i < |routes| && routes[i] == LastWith(routes, a).value &&
              forall j :: i < j < |routes| ==> Slugify(routes[j]) != a
    decreases |routes|
  {
    var init := routes[..|routes| - 1];
    if Slugify(routes[|routes| - 1]) == a {
      assert routes[|routes| - 1] == LastWith(routes, a).value;
    } else {
      LastWithLast(init, a);
      LastAfterInit(routes, a, LastWith(init, a).value);
    }
  }

  /** A route last among the routes before the last is still last when the
      last route has other tokens. */
  lemma LastAfterInit(routes: seq<string>, a: seq<string>, x: string)
    requires |routes| > 0 && Slugify(routes[|routes| - 1]) != a
    requires var init := routes[..|routes| - 1];
             exists i :: 0 <= i < |init| && init[i] == x && forall j :: i < j < |init| ==> Slugify(init[j]) != a
    ensures exists i :: 0 <= i < |routes| && routes[i] == x && forall j :: i < j < |routes| ==> Slugify(routes[j]) != a
  {
    var init := routes[..|routes| - 1];
    var i :| 0 <= i < |init| && init[i] == x && forall j :: i < j < |init| ==> Slugify(init[j]) != a;
    assert routes[i] == init[i];
    forall j | i < j < |routes| ensures Slugify(routes[j]) != a {
      if j < |init| {
        assert routes[j] == init[j];
      }
    }
  }

  /** The route stamped at each address is the last route defined with
      exactly those tokens. */
  lemma {:induction false} BuildPathAt(routes: seq<string>, a: seq<string>)
    ensures PathAt(Build(routes), a) == LastWith(routes, a)
    decreases |routes|
  {
    if |routes| > 0 {
      var r := routes[|routes| - 1];
      BuildPathAt(routes[..|routes| - 1], a);
      DefinePathAt(Build(routes[..|routes| - 1]), Slugify(r), r, a);
    }
  }

  lemma {:induction false} BuildWF(routes: seq<string>)
    ensures WF(Build(routes)) && Classified(Build(routes))
    decreases |routes|
  {
    if |routes| > 0 {
      var r := routes[|routes| - 1];
      BuildWF(routes[..|routes| - 1]);
      DefineWF(Build(routes[..|routes| - 1]), Slugify(r), r);
      DefineClassified(Build(routes[..|routes| - 1]), Slugify(r), r);
    }
  }

  // ---------------------------------------------------------------------
  // A router holding one route.

  /** Each token of `s` is accepted by the edge created for the token of `t`
      at the same position. */
  predicate AcceptsPrefix(t: seq<string>, s: seq<string>, rx: RegexTest)
    requires |s| <= |t|
  {
    forall i :: 0 <= i < |s| ==> MatchSlug(s[i], Parse(t[i]), rx)
  }

  lemma AcceptsPrefixCons(t: seq<string>, s: seq<string>, rx: RegexTest)
    requires 1 <= |s| <= |t|
    ensures AcceptsPrefix(t, s, rx) <==> MatchSlug(s[0], Parse(t[0]), rx) && AcceptsPrefix(t[1..], s[1..], rx)
  {
    if MatchSlug(s[0], Parse(t[0]), rx) && AcceptsPrefix(t[1..], s[1..], rx) {
      forall i | 0 <= i < |s| ensures MatchSlug(s[i], Parse(t[i]), rx) {
        if i > 0 {
          assert s[1..][i - 1] == s[i] && t[1..][i - 1] == t[i];
        }
      }
    }
    if AcceptsPrefix(t, s, rx) {
      forall i | 0 <= i < |s| - 1 ensures MatchSlug(s[1..][i], Parse(t[1..][i]), rx) {
        assert s[1..][i] == s[i + 1] && t[1..][i] == t[i + 1];
      }
    }
  }

  /** `define` of the tokens `t` on a new node builds a chain: a single edge,
      under `t[0]`, to a node classified by `parse` of `t[0]` that holds the
      rest of the chain. */
  lemma ChainStep(o: Options, t: seq<string>, route: string)
    requires |t| >= 1
    ensures var n := Define(Fresh(o), t, route);
            && n.order == [t[0]] && n.edges.Keys == {t[0]} && n.path == None
            && n.edges[t[0]] == Define(Fresh(Parse(t[0])), t[1..], route)
            && OptionsOf(n.edges[t[0]]) == Parse(t[0])
            && OwnKeys(n.order) == [t[0]]
  {
    DefineOptions(Fresh(Parse(t[0])), t[1..], route);
    OwnKeysSingle(t[0]);
  }

  /** The node a chain's first edge leads to, as the last token sees it: the
      end of the chain carries the route; otherwise its only child is a
      trailing wildcard exactly when the next token is `?*`. */
  lemma ChainEnd(o: Options, u: seq<string>, route: string)
    ensures var c := Define(Fresh(o), u, route);
            var ks := OwnKeys(c.order);
            var j := FindTrailing(c, ks);
            && (|u| == 0 ==> ks == [] && j == 0 && c.path == Some(route))
            && (|u| >= 1 ==> c.path == None && ks == [u[0]] && (j < |ks| <==> u[0] == "?*"))
  {
    if |u| >= 1 {
      ChainStep(o, u, route);
      ParseFlags(u[0]);
    }
  }

  /** What a router holding only a non-empty route with tokens `t` (`?*`
      only last) answers to the request `s`. */
  function ChainAnswer(t: seq<string>, s: seq<string>, rx: RegexTest): Option<seq<string>>
  {
    if |s| >= 1 && (|s| == |t| || (|s| + 1 == |t| && t[|s|] == "?*")) && AcceptsPrefix(t, s, rx)
    then Some(t) else None
  }

  /** A trie made by one `define` of a non-empty route with tokens `t` on a
      new node, `?*` only last, matches exactly the token sequences that have
      as many tokens as `t`, or one fewer when `t` ends in `?*`, each
      accepted by the edge of the route's token at the same position; the
      match is then the route's node. */
  lemma {:induction false} SingleRouteMatch(o: Options, t: seq<string>, route: string, s: seq<string>, rx: RegexTest)
    requires |t| >= 1 && route != ""
    requires forall i :: 0 <= i < |t| - 1 ==> t[i] != "?*"
    ensures Match(Define(Fresh(o), t, route), s, rx) == ChainAnswer(t, s, rx)
    decreases |t|
  {
    var n := Define(Fresh(o), t, route);
    ChainStep(o, t, route);
    var k := t[0];
    if |s| == 0 {
    } else if !MatchSlug(s[0], Parse(k), rx) {
      OneEdgeMatch(n, k, s, rx);
    } else {
      ChainEnd(Parse(k), t[1..], route);
      if |s| == 1 {
        ChainLast(n, t, route, s, rx);
      } else {
        var c := n.edges[k];
        if |t| == 1 {
          assert Match(c, s[1..], rx) == None;
        } else {
          assert forall i :: 0 <= i < |t| - 2 ==> t[1..][i] == t[i + 1];
          SingleRouteMatch(Parse(k), t[1..], route, s[1..], rx);
        }
        ChainDeep(n, t, s, rx);
      }
    }
  }

  /** A request of several segments whose first one passes the only edge of
      `n`, the first token of `t`, matches at `n` as the rest matches below
      that edge. */
  lemma ChainDeep(n: Node, t: seq<string>, s: seq<string>, rx: RegexTest)
    requires |t| >= 1 && |s| > 1
    requires OwnKeys(n.order) == [t[0]] && t[0] in n.edges && OptionsOf(n.edges[t[0]]) == Parse(t[0])
    requires MatchSlug(s[0], Parse(t[0]), rx)
    requires Match(n.edges[t[0]], s[1..], rx) == ChainAnswer(t[1..], s[1..], rx)
    ensures Match(n, s, rx) == ChainAnswer(t, s, rx)
  {
    OneEdgeMatch(n, t[0], s, rx);
    ChainAnswerCons(t, s, rx);
    assert [t[0]] + t[1..] == t;
  }

  /** A request of several segments whose first one passes the first token
      of `t` is answered as its remaining segments are by the rest of `t`. */
  lemma ChainAnswerCons(t: seq<string>, s: seq<string>, rx: RegexTest)
    requires |t| >= 1 && |s| > 1 && MatchSlug(s[0], Parse(t[0]), rx)
    ensures ChainAnswer(t, s, rx) == if ChainAnswer(t[1..], s[1..], rx).Some? then Some(t) else None
  {
    var sameLength := |s| == |t| || (|s| + 1 == |t| && t[|s|] == "?*");
    if |s| <= |t| {
      AcceptsPrefixCons(t, s, rx);
      if |s| < |t| {
        assert t[1..][|s| - 1] == t[|s|];
      }
      assert sameLength <==> |s[1..]| == |t[1..]| || (|s[1..]| + 1 == |t[1..]| && t[1..][|s[1..]|] == "?*");
    }
  }

  /** A request of one segment that passes the only edge of `n`, the first
      token of `t`, ends at the route, or at its trailing `?*`. */
  lemma ChainLast(n: Node, t: seq<string>, route: string, s: seq<string>, rx: RegexTest)
    requires |t| >= 1 && route != "" && |s| == 1
    requires forall i :: 0 <= i < |t| - 1 ==> t[i] != "?*"
    requires OwnKeys(n.order) == [t[0]] && t[0] in n.edges && OptionsOf(n.edges[t[0]]) == Parse(t[0])
    requires MatchSlug(s[0], Parse(t[0]), rx)
    requires var c := n.edges[t[0]];
             var ks := OwnKeys(c.order);
             var j := FindTrailing(c, ks);
             && (|t| == 1 ==> ks == [] && j == 0 && c.path == Some(route))
             && (|t| >= 2 ==> c.path == None && ks == [t[1]] && (j < |ks| <==> t[1] == "?*"))
    ensures Match(n, s, rx) ==
              if (|t| == 1 || (|t| == 2 && t[1] == "?*")) && AcceptsPrefix(t, s, rx) then Some(t) else None
  {
    OneEdgeMatch(n, t[0], s, rx);
    AcceptsPrefixCons(t, s, rx);
    if |t| == 1 {
      assert t == [t[0]];
    } else if t[1] == "?*" {
      assert |t| == 2;
      assert t == [t[0], t[1]];
    }
  }

  /** `Match` at a node whose only own key is `k`. */
  lemma OneEdgeMatch(n: Node, k: string, s: seq<string>, rx: RegexTest)
    requires OwnKeys(n.order) == [k] && k in n.edges && |s| >= 1
    ensures var c := n.edges[k];
            var ks := OwnKeys(c.order);
            var j := FindTrailing(c, ks);
            Match(n, s, rx) ==
              if !MatchSlug(s[0], OptionsOf(c), rx) then None
              else if |s| > 1 then (if Match(c, s[1..], rx).Some? then Some([k] + Match(c, s[1..], rx).value) else None)
              else if j < |ks| then Some([k, ks[j]])
              else if Truthy(c.path) then Some([k])
              else None
  {
    if !MatchSlug(s[0], OptionsOf(n.edges[k]), rx) {
      FindEdgeIs(n, [k], s[0], rx, 1);
    } else {
      FindEdgeIs(n, [k], s[0], rx, 0);
      if |s| > 1 {
        MatchDescend(n, s, rx);
      } else {
        MatchLast(n, s, rx);
      }
    }
  }

  /** The same for a router holding one non-empty route. */
  lemma SingleRouterMatch(route: string, s: seq<string>, rx: RegexTest)
    requires route != ""
    ensures Match(Build([route]), s, rx) == ChainAnswer(Slugify(route), s, rx)
  {
    var t := Slugify(route);
    assert [route][..0] == [];
    SlugifyShape(route);
    forall i | 0 <= i < |t| - 1 ensures t[i] != "?*" {
      assert "?*"[0] == '?';
    }
    SingleRouteMatch(Options(0, ""), t, route, s, rx);
  }

  // ---------------------------------------------------------------------
  // Routers whose routes begin with different tokens.

  /** `define` of tokens whose first one is not yet an edge appends that edge,
      holding the chain of the whole route. */
  lemma DefineNewHead(n: Node, t: seq<string>, route: string)
    requires |t| >= 1 && t[0] !in n.edges
    ensures var d := Define(n, t, route);
            && d.order == n.order + [t[0]]
            && d.edges == n.edges[t[0] := Define(Fresh(Parse(t[0])), t[1..], route)]
  {
  }

  /** A route whose first token is not yet an edge of the root adds one. */
  lemma BuildNewHead(routes: seq<string>, r: string)
    requires Slugify(r)[0] !in Build(routes).edges
    ensures var t, n := Slugify(r), Build(routes);
            && Build(routes + [r]).order == n.order + [t[0]]
            && Build(routes + [r]).edges == n.edges[t[0] := Define(Fresh(Parse(t[0])), t[1..], r)]
  {
    BuildStep(routes, r, Slugify(r));
    DefineNewHead(Build(routes), Slugify(r), r);
  }

  /** Two routes whose first tokens differ: one edge each, in order. */
  lemma BuildTwoHeads(r1: string, r2: string)
    requires Slugify(r1)[0] != Slugify(r2)[0]
    ensures var t1, t2 := Slugify(r1), Slugify(r2);
            var n := Build([r1, r2]);
            && n.order == [t1[0], t2[0]]
            && n.edges == map[t1[0] := Define(Fresh(Parse(t1[0])), t1[1..], r1),
                              t2[0] := Define(Fresh(Parse(t2[0])), t2[1..], r2)]
  {
    assert Build([]) == Root();
    BuildNewHead([], r1);
    assert [] + [r1] == [r1];
    BuildNewHead([r1], r2);
    assert [r1] + [r2] == [r1, r2];
  }

  /** Three routes whose first tokens differ: the root has one edge per
      route, in definition order, each holding the chain of its route. */
  lemma BuildThreeHeads(r1: string, r2: string, r3: string)
    requires Slugify(r1)[0] != Slugify(r2)[0] && Slugify(r1)[0] != Slugify(r3)[0] && Slugify(r2)[0] != Slugify(r3)[0]
    ensures var t1, t2, t3 := Slugify(r1), Slugify(r2), Slugify(r3);
            var n := Build([r1, r2, r3]);
            && n.order == [t1[0], t2[0], t3[0]]
            && n.edges == map[t1[0] := Define(Fresh(Parse(t1[0])), t1[1..], r1),
                              t2[0] := Define(Fresh(Parse(t2[0])), t2[1..], r2),
                              t3[0] := Define(Fresh(Parse(t3[0])), t3[1..], r3)]
  {
    BuildTwoHeads(r1, r2);
    BuildNewHead([r1, r2], r3);
    assert [r1, r2] + [r3] == [r1, r2, r3];
  }

  /** At a node whose edge under `t[0]` holds the chain of a non-empty route
      with tokens `t` (`?*` only last), a request whose first segment the
      key order sends to that edge matches as in a router holding that route
      alone. */
  lemma FocusEdge(n: Node, t: seq<string>, route: string, s: seq<string>, rx: RegexTest, i: nat)
    requires |t| >= 1 && |s| >= 1 && route != ""
    requires forall j :: 0 <= j < |t| - 1 ==> t[j] != "?*"
    requires i < |OwnKeys(n.order)| && OwnKeys(n.order)[i] == t[0]
    requires FindEdge(n, OwnKeys(n.order), s[0], rx) == i
    requires t[0] in n.edges && n.edges[t[0]] == Define(Fresh(Parse(t[0])), t[1..], route)
    ensures Match(n, s, rx) == ChainAnswer(t, s, rx)
  {
    var o := Parse(t[0]);
    var m := Define(Fresh(o), t, route);
    ChainStep(o, t, route);
    FindEdgeIs(m, [t[0]], s[0], rx, 0);
    assert Match(n, s, rx) == Match(m, s, rx);
    SingleRouteMatch(o, t, route, s, rx);
  }

  /** `?*` can only be the last token of a route. */
  lemma TrailingOnlyLast(route: string)
    ensures forall i :: 0 <= i < |Slugify(route)| - 1 ==> Slugify(route)[i] != "?*"
  {
    SlugifyShape(route);
    forall i | 0 <= i < |Slugify(route)| - 1 ensures Slugify(route)[i] != "?*" {
      assert "?*"[0] == '?';
    }
  }

  /** A root with one edge per route under the route's first token, listed
      in definition order, each holding the chain of its route. */
  predicate ThreeHeads(n: Node, r1: string, r2: string, r3: string)
  {
    var t1, t2, t3 := Slugify(r1), Slugify(r2), Slugify(r3);
    && OwnKeys(n.order) == [t1[0], t2[0], t3[0]]
    && t1[0] in n.edges && n.edges[t1[0]] == Define(Fresh(Parse(t1[0])), t1[1..], r1)
    && t2[0] in n.edges && n.edges[t2[0]] == Define(Fresh(Parse(t2[0])), t2[1..], r2)
    && t3[0] in n.edges && n.edges[t3[0]] == Define(Fresh(Parse(t3[0])), t3[1..], r3)
  }

  /** At a node with three edges, classified by their keys, a segment is sent
      to the first edge in key order whose key accepts it. */
  lemma ThreeKeysFind(n: Node, k1: string, k2: string, k3: string, slug: string, rx: RegexTest)
    requires OwnKeys(n.order) == [k1, k2, k3] && k1 in n.edges && k2 in n.edges && k3 in n.edges
    requires OptionsOf(n.edges[k1]) == Parse(k1) && OptionsOf(n.edges[k2]) == Parse(k2)
    requires OptionsOf(n.edges[k3]) == Parse(k3)
    ensures FindEdge(n, OwnKeys(n.order), slug, rx) ==
              if MatchSlug(slug, Parse(k1), rx) then 0
              else if MatchSlug(slug, Parse(k2), rx) then 1
              else if MatchSlug(slug, Parse(k3), rx) then 2
              else 3
  {
    var ks := OwnKeys(n.order);
    var a1, a2, a3 := MatchSlug(slug, Parse(k1), rx), MatchSlug(slug, Parse(k2), rx), MatchSlug(slug, Parse(k3), rx);
    assert Accepts(n, ks[0], slug, rx) == a1 && Accepts(n, ks[1], slug, rx) == a2 && Accepts(n, ks[2], slug, rx) == a3;
    assert ks[1..] == [k2, k3] && ks[2..] == [k3] && ks[3..] == [];
    assert FindEdge(n, ks[3..], slug, rx) == 0;
    assert FindEdge(n, ks[2..], slug, rx) == if a3 then 0 else 1;
    assert FindEdge(n, ks[1..], slug, rx) == if a2 then 0 else 1 + FindEdge(n, ks[2..], slug, rx);
  }

  /** At such a root the first segment picks the first route whose first
      edge accepts it, and the request then matches as in a router holding
      that route alone; no other route is tried. */
  lemma ThreeHeadsDispatch(n: Node, r1: string, r2: string, r3: string, s: seq<string>, rx: RegexTest)
    requires ThreeHeads(n, r1, r2, r3) && r1 != "" && r2 != "" && r3 != "" && |s| >= 1
    ensures var t1, t2, t3 := Slugify(r1), Slugify(r2), Slugify(r3);
            Match(n, s, rx) ==
              if MatchSlug(s[0], Parse(t1[0]), rx) then ChainAnswer(t1, s, rx)
              else if MatchSlug(s[0], Parse(t2[0]), rx) then ChainAnswer(t2, s, rx)
              else if MatchSlug(s[0], Parse(t3[0]), rx) then ChainAnswer(t3, s, rx)
              else None
  {
    var t1, t2, t3 := Slugify(r1), Slugify(r2), Slugify(r3);
    DefineOptions(Fresh(Parse(t1[0])), t1[1..], r1);
    DefineOptions(Fresh(Parse(t2[0])), t2[1..], r2);
    DefineOptions(Fresh(Parse(t3[0])), t3[1..], r3);
    ThreeKeysFind(n, t1[0], t2[0], t3[0], s[0], rx);
    if MatchSlug(s[0], Parse(t1[0]), rx) {
      TrailingOnlyLast(r1);
      FocusEdge(n, t1, r1, s, rx, 0);
    } else if MatchSlug(s[0], Parse(t2[0]), rx) {
      TrailingOnlyLast(r2);
      FocusEdge(n, t2, r2, s, rx, 1);
    } else if MatchSlug(s[0], Parse(t3[0]), rx) {
      TrailingOnlyLast(r3);
      FocusEdge(n, t3, r3, s, rx, 2);
    }
  }

  /** A router of three non-empty routes whose first tokens differ and are
      not array indices: the first segment of a request picks the first
      route, in definition order, whose first edge accepts it, and the
      request matches exactly when it would in a router holding that route
      alone. */
  lemma ThreeHeadsRouter(r1: string, r2: string, r3: string, s: seq<string>, rx: RegexTest)
    requires r1 != "" && r2 != "" && r3 != "" && |s| >= 1
    requires Slugify(r1)[0] != Slugify(r2)[0] && Slugify(r1)[0] != Slugify(r3)[0] && Slugify(r2)[0] != Slugify(r3)[0]
    requires !IsArrayIndex(Slugify(r1)[0]) && !IsArrayIndex(Slugify(r2)[0]) && !IsArrayIndex(Slugify(r3)[0])
    ensures var t1, t2, t3 := Slugify(r1), Slugify(r2), Slugify(r3);
            Match(Build([r1, r2, r3]), s, rx) ==
              if MatchSlug(s[0], Parse(t1[0]), rx) then ChainAnswer(t1, s, rx)
              else if MatchSlug(s[0], Parse(t2[0]), rx) then ChainAnswer(t2, s, rx)
              else if MatchSlug(s[0], Parse(t3[0]), rx) then ChainAnswer(t3, s, rx)
              else None
  {
    BuildThreeHeadsRoot(r1, r2, r3);
    ThreeHeadsDispatch(Build([r1, r2, r3]), r1, r2, r3, s, rx);
  }

  /** Of three such routes, a request whose first segment only the first
      edge of the route `r2` accepts matches as in a router holding `r2`
      alone; likewise for `r1` and `r3`. */
  lemma SecondRouteAnswer(r1: string, r2: string, r3: string, s: seq<string>, rx: RegexTest)
    requires r1 != "" && r2 != "" && r3 != "" && |s| >= 1
    requires Slugify(r1)[0] != Slugify(r2)[0] && Slugify(r1)[0] != Slugify(r3)[0] && Slugify(r2)[0] != Slugify(r3)[0]
    requires !IsArrayIndex(Slugify(r1)[0]) && !IsArrayIndex(Slugify(r2)[0]) && !IsArrayIndex(Slugify(r3)[0])
    requires !MatchSlug(s[0], Parse(Slugify(r1)[0]), rx) && MatchSlug(s[0], Parse(Slugify(r2)[0]), rx)
    ensures Match(Build([r1, r2, r3]), s, rx) == ChainAnswer(Slugify(r2), s, rx)
  {
    ThreeHeadsRouter(r1, r2, r3, s, rx);
  }

  lemma FirstRouteAnswer(r1: string, r2: string, r3: string, s: seq<string>, rx: RegexTest)
    requires r1 != "" && r2 != "" && r3 != "" && |s| >= 1
    requires Slugify(r1)[0] != Slugify(r2)[0] && Slugify(r1)[0] != Slugify(r3)[0] && Slugify(r2)[0] != Slugify(r3)[0]
    requires !IsArrayIndex(Slugify(r1)[0]) && !IsArrayIndex(Slugify(r2)[0]) && !IsArrayIndex(Slugify(r3)[0])
    requires MatchSlug(s[0], Parse(Slugify(r1)[0]), rx)
    ensures Match(Build([r1, r2, r3]), s, rx) == ChainAnswer(Slugify(r1), s, rx)
  {
    ThreeHeadsRouter(r1, r2, r3, s, rx);
  }

  lemma ThirdRouteAnswer(r1: string, r2: string, r3: string, s: seq<string>, rx: RegexTest)
    requires r1 != "" && r2 != "" && r3 != "" && |s| >= 1
    requires Slugify(r1)[0] != Slugify(r2)[0] && Slugify(r1)[0] != Slugify(r3)[0] && Slugify(r2)[0] != Slugify(r3)[0]
    requires !IsArrayIndex(Slugify(r1)[0]) && !IsArrayIndex(Slugify(r2)[0]) && !IsArrayIndex(Slugify(r3)[0])
    requires !MatchSlug(s[0], Parse(Slugify(r1)[0]), rx) && !MatchSlug(s[0], Parse(Slugify(r2)[0]), rx)
    requires MatchSlug(s[0], Parse(Slugify(r3)[0]), rx)
    ensures Match(Build([r1, r2, r3]), s, rx) == ChainAnswer(Slugify(r3), s, rx)
  {
    ThreeHeadsRouter(r1, r2, r3, s, rx);
  }

  lemma BuildThreeHeadsRoot(r1: string, r2: string, r3: string)
    requires Slugify(r1)[0] != Slugify(r2)[0] && Slugify(r1)[0] != Slugify(r3)[0] && Slugify(r2)[0] != Slugify(r3)[0]
    requires !IsArrayIndex(Slugify(r1)[0]) && !IsArrayIndex(Slugify(r2)[0]) && !IsArrayIndex(Slugify(r3)[0])
    ensures ThreeHeads(Build([r1, r2, r3]), r1, r2, r3)
  {
    var hs := [Slugify(r1)[0], Slugify(r2)[0], Slugify(r3)[0]];
    BuildThreeHeads(r1, r2, r3);
    OwnKeysInsertionOrder(hs);
  }

  // ---------------------------------------------------------------------
  // Static routes: literal segments, optionally ending in `?*`.

  /** A token `parse` classifies as a literal: empty, or `[\w.-]+`. */
  predicate LiteralToken(t: string)
  {
    t == "" || IsWordSlug(t)
  }

  predicate AllLiteral(ts: seq<string>)
  {
    forall i :: 0 <= i < |ts| ==> LiteralToken(ts[i])
  }

  /** Literal tokens, the last of which may instead be the trailing wildcard. */
  predicate StaticTokens(ts: seq<string>)
  {
    forall i :: 0 <= i < |ts| ==> LiteralToken(ts[i]) || (i == |ts| - 1 && ts[i] == "?*")
  }

  predicate LiteralRoute(r: string)
  {
    AllLiteral(Slugify(r))
  }

  predicate StaticRoute(r: string)
  {
    StaticTokens(Slugify(r))
  }

  /** Every key is a literal token or `?*`; a `?*` node is a leaf carrying a
      non-empty route. */
  predicate StaticTrie(n: Node)
  {
    forall k | k in n.edges ::
      || (LiteralToken(k) && StaticTrie(n.edges[k]))
      || (k == "?*" && n.edges[k].edges == map[] && Truthy(n.edges[k].path))
  }

  lemma LiteralNotQuery(t: string)
    requires LiteralToken(t)
    ensures !StartsWith(t, '?')
  {
    if t != "" {
      assert IsWordChar(t[0]);
    }
  }

  /** In a static node, a literal token selects its own edge, a `?`-token the
      `?*` edge, and any other token no edge. */
  lemma StaticFind(n: Node, slug: string, rx: RegexTest)
    requires LocalWF(n) && Classified(n) && StaticTrie(n)
    ensures var keys := OwnKeys(n.order);
            var i := FindEdge(n, keys, slug, rx);
            var want := if StartsWith(slug, '?') then "?*" else slug;
            && (i < |keys| <==> (LiteralToken(slug) || StartsWith(slug, '?')) && want in n.edges)
            && (i < |keys| ==> keys[i] == want)
  {
    var keys := OwnKeys(n.order);
    var i := FindEdge(n, keys, slug, rx);
    var want := if StartsWith(slug, '?') then "?*" else slug;
    if i < |keys| {
      EdgeAccepts(keys[i], slug, rx);
      if LiteralToken(keys[i]) {
        LiteralNotQuery(keys[i]);
      } else {
        ParseRules(keys[i]);
      }
    } else if (LiteralToken(slug) || StartsWith(slug, '?')) && want in n.edges {
      OwnKeysMembers(n.order, want);
      var j :| 0 <= j < |keys| && keys[j] == want;
      EdgeAccepts(want, slug, rx);
    }
  }

  /** Only a `?*` child carries the trailing-wildcard bit. */
  lemma StaticTrailing(n: Node)
    requires LocalWF(n) && Classified(n) && StaticTrie(n)
    ensures var keys := OwnKeys(n.order);
            var j := FindTrailing(n, keys);
            && (j < |keys| <==> "?*" in n.edges)
            && (j < |keys| ==> keys[j] == "?*")
  {
    var keys := OwnKeys(n.order);
    var j := FindTrailing(n, keys);
    if j < |keys| {
      ParseFlags(keys[j]);
    } else if "?*" in n.edges {
      OwnKeysMembers(n.order, "?*");
      ParseFlags("?*");
    }
  }

  /** How a static trie answers tokens whose last one is the only one that
      may be a query token: literal tokens match the node they address,
      preferring its `?*` child; a final `?`-token matches the `?*` child of
      the node the other tokens address; anything else does not match. */
  function StaticAnswer(n: Node, slugs: seq<string>): Option<seq<string>>
    requires |slugs| >= 1
  {
    var p, q := slugs[..|slugs| - 1], slugs[|slugs| - 1];
    if !AllLiteral(p) then None
    else if LiteralToken(q) then
      if NodeAt(n, slugs + ["?*"]).Some? then Some(slugs + ["?*"])
      else if Truthy(PathAt(n, slugs)) then Some(slugs)
      else None
    else if StartsWith(q, '?') then
      if NodeAt(n, p + ["?*"]).Some? then Some(p + ["?*"]) else None
    else None
  }

  lemma {:induction false} StaticMatch(n: Node, slugs: seq<string>, rx: RegexTest)
    requires WF(n) && Classified(n) && StaticTrie(n)
    requires |slugs| >= 1
    ensures Match(n, slugs, rx) == StaticAnswer(n, slugs)
    decreases |slugs|
  {
    if |slugs| == 1 {
      var q := slugs[0];
      StaticFind(n, q, rx);
      if LiteralToken(q) {
        LiteralNotQuery(q);
        if q in n.edges {
          StaticTrailing(n.edges[q]);
        }
        StaticMatchLiteral(n, slugs, rx);
      } else if StartsWith(q, '?') {
        if "?*" in n.edges {
          QueryLeaf(n);
        }
        StaticMatchQuery(n, slugs, rx);
      }
    } else {
      StaticMatchStep(n, slugs, rx);
    }
  }

  /** The last token is a literal: its own edge, then the `?*` grandchild. */
  lemma StaticMatchLiteral(n: Node, slugs: seq<string>, rx: RegexTest)
    requires |slugs| == 1 && LiteralToken(slugs[0]) && !StartsWith(slugs[0], '?')
    requires var keys := OwnKeys(n.order);
             var i := FindEdge(n, keys, slugs[0], rx);
             && (i < |keys| <==> slugs[0] in n.edges)
             && (i < |keys| ==> keys[i] == slugs[0])
    requires slugs[0] in n.edges ==>
               var c := n.edges[slugs[0]];
               var j := FindTrailing(c, OwnKeys(c.order));
               && (j < |OwnKeys(c.order)| <==> "?*" in c.edges)
               && (j < |OwnKeys(c.order)| ==> OwnKeys(c.order)[j] == "?*")
    ensures Match(n, slugs, rx) == StaticAnswer(n, slugs)
  {
    var q := slugs[0];
    if q in n.edges {
      StaticMatchLiteralEdge(n, slugs, rx);
    } else {
      assert slugs == [q];
      assert slugs + ["?*"] == [q, "?*"];
      assert AllLiteral(slugs[..0]);
      assert NodeAt(n, slugs) == None;
      assert NodeAt(n, [q, "?*"]) == None;
    }
  }

  /** `StaticMatchLiteral` when the literal has an edge. */
  lemma StaticMatchLiteralEdge(n: Node, slugs: seq<string>, rx: RegexTest)
    requires |slugs| == 1 && LiteralToken(slugs[0]) && slugs[0] in n.edges
    requires var keys := OwnKeys(n.order);
             var i := FindEdge(n, keys, slugs[0], rx);
             i < |keys| && keys[i] == slugs[0]
    requires var c := n.edges[slugs[0]];
             var j := FindTrailing(c, OwnKeys(c.order));
             && (j < |OwnKeys(c.order)| <==> "?*" in c.edges)
             && (j < |OwnKeys(c.order)| ==> OwnKeys(c.order)[j] == "?*")
    ensures Match(n, slugs, rx) == StaticAnswer(n, slugs)
  {
    var q := slugs[0];
    assert slugs == [q];
    assert slugs + ["?*"] == [q, "?*"];
    assert AllLiteral(slugs[..0]);
    var c := n.edges[q];
    MatchLast(n, slugs, rx);
    assert NodeAt(n, [q, "?*"]) == NodeAt(c, ["?*"]) by {
      assert [q, "?*"][1..] == ["?*"];
    }
    assert NodeAt(n, slugs) == NodeAt(c, []) by {
      assert slugs[1..] == [];
    }
  }

  /** The last token is a query token: the `?*` edge, a leaf with a route. */
  lemma StaticMatchQuery(n: Node, slugs: seq<string>, rx: RegexTest)
    requires |slugs| == 1 && StartsWith(slugs[0], '?') && !LiteralToken(slugs[0])
    requires var keys := OwnKeys(n.order);
             var i := FindEdge(n, keys, slugs[0], rx);
             && (i < |keys| <==> "?*" in n.edges)
             && (i < |keys| ==> keys[i] == "?*")
    requires "?*" in n.edges ==> n.edges["?*"].order == [] && Truthy(n.edges["?*"].path)
    ensures Match(n, slugs, rx) == StaticAnswer(n, slugs)
  {
    assert slugs[..0] == [];
    assert [] + ["?*"] == ["?*"];
    if "?*" in n.edges {
      MatchLast(n, slugs, rx);
      assert NodeAt(n, ["?*"]) == NodeAt(n.edges["?*"], []);
    } else {
      assert NodeAt(n, ["?*"]) == None;
    }
  }

  /** The `?*` child of a static node is a leaf with a route. */
  lemma QueryLeaf(n: Node)
    requires WF(n) && StaticTrie(n) && "?*" in n.edges
    ensures n.edges["?*"].edges == map[] && n.edges["?*"].order == []
    ensures Truthy(n.edges["?*"].path)
  {
    var c := n.edges["?*"];
    if LiteralToken("?*") {
      LiteralNotQuery("?*");
      assert false;
    }
    NoEdgesNoOrder(c);
  }

  lemma AllLiteralCons(k: string, ts: seq<string>)
    ensures AllLiteral([k] + ts) <==> LiteralToken(k) && AllLiteral(ts)
  {
    var s := [k] + ts;
    assert s[0] == k;
    assert forall j :: 0 <= j < |ts| ==> s[j + 1] == ts[j];
    if LiteralToken(k) && AllLiteral(ts) {
      forall j | 0 <= j < |s| ensures LiteralToken(s[j]) {
        if j > 0 {
          assert s[j] == ts[j - 1];
        }
      }
    }
  }

  /** Through a literal edge, the reference answer is the child's, prefixed. */
  lemma AnswerDescend(n: Node, slugs: seq<string>)
    requires |slugs| > 1 && LiteralToken(slugs[0]) && slugs[0] in n.edges
    ensures var a := StaticAnswer(n.edges[slugs[0]], slugs[1..]);
            StaticAnswer(n, slugs) == if a.Some? then Some([slugs[0]] + a.value) else None
  {
    var k, rest := slugs[0], slugs[1..];
    var c := n.edges[k];
    var p := slugs[..|slugs| - 1];
    assert slugs == [k] + rest;
    assert p == [k] + rest[..|rest| - 1];
    AllLiteralCons(k, rest[..|rest| - 1]);
    assert rest[|rest| - 1] == slugs[|slugs| - 1];
    assert slugs + ["?*"] == [k] + (rest + ["?*"]);
    assert p + ["?*"] == [k] + (rest[..|rest| - 1] + ["?*"]);
    assert NodeAt(n, slugs + ["?*"]) == NodeAt(c, rest + ["?*"]);
    assert NodeAt(n, p + ["?*"]) == NodeAt(c, rest[..|rest| - 1] + ["?*"]);
    assert NodeAt(n, slugs) == NodeAt(c, rest);
  }

  /** Without a literal edge for the first token there is no reference answer. */
  lemma AnswerMissing(n: Node, slugs: seq<string>)
    requires |slugs| > 1 && !(LiteralToken(slugs[0]) && slugs[0] in n.edges)
    ensures StaticAnswer(n, slugs) == None
  {
    var k, rest := slugs[0], slugs[1..];
    var p := slugs[..|slugs| - 1];
    assert p == [k] + rest[..|rest| - 1];
    AllLiteralCons(k, rest[..|rest| - 1]);
    if LiteralToken(k) {
      assert (slugs + ["?*"])[0] == k;
      assert (p + ["?*"])[0] == k;
      assert NodeAt(n, slugs + ["?*"]) == None;
      assert NodeAt(n, p + ["?*"]) == None;
      assert NodeAt(n, slugs) == None;
    }
  }

  lemma {:induction false} StaticMatchStep(n: Node, slugs: seq<string>, rx: RegexTest)
    requires WF(n) && Classified(n) && StaticTrie(n)
    requires |slugs| > 1
    ensures Match(n, slugs, rx) == StaticAnswer(n, slugs)
    decreases |slugs|, 0
  {
    var k := slugs[0];
    StaticFind(n, k, rx);
    var keys := OwnKeys(n.order);
    var i := FindEdge(n, keys, k, rx);
    if LiteralToken(k) && k in n.edges {
      LiteralNotQuery(k);
      MatchDescend(n, slugs, rx);
      StaticMatch(n.edges[k], slugs[1..], rx);
      AnswerDescend(n, slugs);
    } else {
      AnswerMissing(n, slugs);
      if i < |keys| {
        QueryLeaf(n);
        var c := n.edges["?*"];
        assert OwnKeys(c.order) == [];
        assert Match(c, slugs[1..], rx) == None;
        MatchDescend(n, slugs, rx);
      }
    }
  }

  lemma {:induction false} DefineStatic(n: Node, slugs: seq<string>, route: string)
    requires StaticTrie(n)
    requires StaticTokens(slugs)
    requires |slugs| > 0 && slugs[|slugs| - 1] == "?*" ==> route != ""
    ensures StaticTrie(Define(n, slugs, route))
    decreases |slugs|
  {
    if |slugs| > 0 {
      var key := slugs[0];
      var child := if key in n.edges then n.edges[key] else Fresh(Parse(key));
      if LiteralToken(key) {
        assert StaticTokens(slugs[1..]);
        DefineStatic(child, slugs[1..], route);
      } else {
        assert |slugs| == 1;
      }
    }
  }

  /** The nodes of a router are the root and the prefixes of defined tokens. */
  lemma {:induction false} BuildHas(routes: seq<string>, a: seq<string>)
    ensures NodeAt(Build(routes), a).Some? <==>
              |a| == 0 || exists i :: 0 <= i < |routes| && IsPrefix(a, Slugify(routes[i]))
    decreases |routes|
  {
    if |routes| > 0 {
      var init, r := routes[..|routes| - 1], routes[|routes| - 1];
      BuildHas(init, a);
      assert Build(routes) == Define(Build(init), Slugify(r), r);
      DefineHas(Build(init), Slugify(r), r, a);
      PrefixOfSome(routes, a);
    } else if |a| > 0 {
      assert NodeAt(Root(), a) == None;
    }
  }

  /** `a` is a prefix of the tokens of some route exactly when it is one for
      a route before the last, or for the last. */
  lemma PrefixOfSome(routes: seq<string>, a: seq<string>)
    requires |routes| > 0
    ensures var init, r := routes[..|routes| - 1], routes[|routes| - 1];
            (exists i :: 0 <= i < |routes| && IsPrefix(a, Slugify(routes[i]))) <==>
              (exists i :: 0 <= i < |init| && IsPrefix(a, Slugify(init[i]))) || IsPrefix(a, Slugify(r))
  {
    var init, r := routes[..|routes| - 1], routes[|routes| - 1];
    if exists i :: 0 <= i < |routes| && IsPrefix(a, Slugify(routes[i])) {
      var i :| 0 <= i < |routes| && IsPrefix(a, Slugify(routes[i]));
      if i < |routes| - 1 {
        assert routes[i] == init[i];
      }
    }
    if exists i :: 0 <= i < |init| && IsPrefix(a, Slugify(init[i])) {
      var i :| 0 <= i < |init| && IsPrefix(a, Slugify(init[i]));
      assert routes[i] == init[i];
    }
  }

  lemma SlugifyEmpty()
    ensures Slugify("") == [""]
  {
  }

  lemma {:induction false} BuildStatic(routes: seq<string>)
    requires forall i :: 0 <= i < |routes| ==> StaticRoute(routes[i])
    ensures StaticTrie(Build(routes))
    decreases |routes|
  {
    if |routes| > 0 {
      var r := routes[|routes| - 1];
      BuildStatic(routes[..|routes| - 1]);
      assert StaticRoute(r);
      SlugifyEmpty();
      DefineStatic(Build(routes[..|routes| - 1]), Slugify(r), r);
    }
  }

  /** A static token sequence extended by `?*` is a prefix of another static
      token sequence only when the two are equal. */
  lemma TrailingPrefix(s: seq<string>, ts: seq<string>)
    requires StaticTokens(ts) && IsPrefix(s + ["?*"], ts)
    ensures ts == s + ["?*"]
  {
    assert ts[|s|] == "?*";
    assert !LiteralToken("?*") by { assert "?*"[0] == '?'; }
  }

  /** When every defined route is static (as `/product/?*`), a request
      matches the `?*` node of the route spelled by its literal tokens, or
      else the node of a route with exactly its tokens; the route found is
      the last one defined with those tokens. */
  lemma StaticRoutesMatch(routes: seq<string>, slugs: seq<string>, rx: RegexTest)
    requires forall i :: 0 <= i < |routes| ==> StaticRoute(routes[i])
    requires |slugs| >= 1
    ensures var p, q := slugs[..|slugs| - 1], slugs[|slugs| - 1];
            Match(Build(routes), slugs, rx) ==
              if !AllLiteral(p) then None
              else if LiteralToken(q) then
                if LastWith(routes, slugs + ["?*"]).Some? then Some(slugs + ["?*"])
                else if Truthy(LastWith(routes, slugs)) then Some(slugs)
                else None
              else if StartsWith(q, '?') then
                if LastWith(routes, p + ["?*"]).Some? then Some(p + ["?*"]) else None
              else None
    ensures PathAt(Build(routes), slugs) == LastWith(routes, slugs)
    ensures PathAt(Build(routes), slugs + ["?*"]) == LastWith(routes, slugs + ["?*"])
    ensures PathAt(Build(routes), slugs[..|slugs| - 1] + ["?*"]) == LastWith(routes, slugs[..|slugs| - 1] + ["?*"])
  {
    var t := Build(routes);
    var p := slugs[..|slugs| - 1];
    BuildWF(routes);
    BuildStatic(routes);
    StaticMatch(t, slugs, rx);
    BuildPathAt(routes, slugs);
    BuildPathAt(routes, slugs + ["?*"]);
    BuildPathAt(routes, p + ["?*"]);
    BuildTrailingHas(routes, slugs);
    BuildTrailingHas(routes, p);
  }

  /** Among static routes, a `?*` node exists exactly where a route ends in it. */
  lemma BuildTrailingHas(routes: seq<string>, s: seq<string>)
    requires forall i :: 0 <= i < |routes| ==> StaticRoute(routes[i])
    ensures NodeAt(Build(routes), s + ["?*"]).Some? <==> LastWith(routes, s + ["?*"]).Some?
  {
    BuildHas(routes, s + ["?*"]);
    if NodeAt(Build(routes), s + ["?*"]).Some? {
      var i :| 0 <= i < |routes| && IsPrefix(s + ["?*"], Slugify(routes[i]));
      TrailingPrefix(s, Slugify(routes[i]));
    }
    if LastWith(routes, s + ["?*"]).Some? {
      var r := LastWith(routes, s + ["?*"]).value;
      var i :| 0 <= i < |routes| && routes[i] == r;
      assert IsPrefix(s + ["?*"], Slugify(routes[i]));
    }
  }

  /** When every defined route is made of literal tokens, a token sequence
      matches exactly when it is that of a defined route and the last such
      route is not the empty string; the match is that route's node. */
  lemma LiteralRoutesMatchTokens(routes: seq<string>, slugs: seq<string>, rx: RegexTest)
    requires forall i :: 0 <= i < |routes| ==> LiteralRoute(routes[i])
    requires |slugs| >= 1
    ensures var m := Match(Build(routes), slugs, rx);
            && (m.Some? <==> Truthy(LastWith(routes, slugs)))
            && (m.Some? ==> m.value == slugs && PathAt(Build(routes), m.value) == LastWith(routes, slugs))
  {
    var p, q := slugs[..|slugs| - 1], slugs[|slugs| - 1];
    assert !LiteralToken("?*") by { assert "?*"[0] == '?'; }
    forall i | 0 <= i < |routes| ensures StaticRoute(routes[i]) {
      assert LiteralRoute(routes[i]);
    }
    StaticRoutesMatch(routes, slugs, rx);
    LiteralNoTrailing(routes, slugs);
    LiteralNoTrailing(routes, p);
    if LastWith(routes, slugs).Some? {
      var r := LastWith(routes, slugs).value;
      var i :| 0 <= i < |routes| && routes[i] == r;
      assert LiteralRoute(routes[i]);
      assert AllLiteral(p) && LiteralToken(q) by {
        assert forall j :: 0 <= j < |p| ==> p[j] == slugs[j];
      }
    }
  }

  /** No literal route ends in `?*`. */
  lemma LiteralNoTrailing(routes: seq<string>, s: seq<string>)
    requires forall i :: 0 <= i < |routes| ==> LiteralRoute(routes[i])
    ensures LastWith(routes, s + ["?*"]) == None
  {
    forall i | 0 <= i < |routes| ensures Slugify(routes[i]) != s + ["?*"] {
      assert LiteralRoute(routes[i]);
      NotTrailing(Slugify(routes[i]), s);
    }
  }

  lemma NotTrailing(t: seq<string>, s: seq<string>)
    requires AllLiteral(t)
    ensures t != s + ["?*"]
  {
    assert !LiteralToken("?*") by { assert "?*"[0] == '?'; }
    if |t| == |s| + 1 {
      assert LiteralToken(t[|s|]);
      assert (s + ["?*"])[|s|] == "?*";
    }
  }

  /** The same for a request path. */
  lemma LiteralRoutesMatch(routes: seq<string>, path: string, rx: RegexTest)
    requires forall i :: 0 <= i < |routes| ==> LiteralRoute(routes[i])
    ensures var m := Match(Build(routes), Slugify(path), rx);
            && (m.Some? <==> Truthy(LastWith(routes, Slugify(path))))
            && (m.Some? ==> m.value == Slugify(path) && PathAt(Build(routes), m.value) == LastWith(routes, Slugify(path)))
  {
    LiteralRoutesMatchTokens(routes, Slugify(path), rx);
  }

  // ---------------------------------------------------------------------
  // Adding routes.

  /** `d` keeps every child of `n` with its status and pattern, and
      enumerates them first, in the same order. */
  predicate Extends(n: Node, d: Node)
  {
    && |OwnKeys(n.order)| <= |OwnKeys(d.order)|
    && OwnKeys(d.order)[..|OwnKeys(n.order)|] == OwnKeys(n.order)
    && forall k | k in n.edges :: k in d.edges && OptionsOf(d.edges[k]) == OptionsOf(n.edges[k])
  }

  /** `define` with a first token that is not an array index only appends. */
  lemma DefineExtends(n: Node, slugs: seq<string>, route: string)
    requires LocalWF(n)
    requires |slugs| > 0 ==> !IsArrayIndex(slugs[0])
    ensures Extends(n, Define(n, slugs, route))
    ensures forall k | k in n.edges ::
              Define(n, slugs, route).edges[k] ==
                if |slugs| > 0 && k == slugs[0] then Define(n.edges[k], slugs[1..], route) else n.edges[k]
  {
    var d := Define(n, slugs, route);
    if |slugs| > 0 {
      var key := slugs[0];
      if key !in n.edges {
        OwnKeysAppendOther(n.order, key);
      }
      forall k | k in n.edges
        ensures k in d.edges && OptionsOf(d.edges[k]) == OptionsOf(n.edges[k])
      {
        DefineOptions(n.edges[k], slugs[1..], route);
      }
    }
  }

  /** The scan stops at the same child once the edges it passed over are kept. */
  lemma ExtendsFindEdge(n: Node, d: Node, slug: string, rx: RegexTest)
    requires LocalWF(n) && Extends(n, d)
    requires FindEdge(n, OwnKeys(n.order), slug, rx) < |OwnKeys(n.order)|
    ensures FindEdge(d, OwnKeys(d.order), slug, rx) == FindEdge(n, OwnKeys(n.order), slug, rx)
  {
    var keys, keys' := OwnKeys(n.order), OwnKeys(d.order);
    var i := FindEdge(n, keys, slug, rx);
    forall j | 0 <= j <= i
      ensures keys'[j] == keys[j]
      ensures Accepts(d, keys[j], slug, rx) <==> Accepts(n, keys[j], slug, rx)
    {
      assert keys'[j] == keys'[..|keys|][j];
      OwnKeysMembers(n.order, keys[j]);
    }
  }

  lemma ExtendsFindTrailing(n: Node, d: Node)
    requires LocalWF(n) && Extends(n, d)
    requires FindTrailing(n, OwnKeys(n.order)) < |OwnKeys(n.order)|
    ensures FindTrailing(d, OwnKeys(d.order)) == FindTrailing(n, OwnKeys(n.order))
  {
    var keys, keys' := OwnKeys(n.order), OwnKeys(d.order);
    var i := FindTrailing(n, keys);
    forall j | 0 <= j <= i
      ensures keys'[j] == keys[j]
      ensures IsTrailing(d, keys[j]) <==> IsTrailing(n, keys[j])
    {
      assert keys'[j] == keys'[..|keys|][j];
      OwnKeysMembers(n.order, keys[j]);
    }
  }

  /** The last step of the descent, when an edge accepts the only token. */
  lemma MatchLast(n: Node, slugs: seq<string>, rx: RegexTest)
    requires |slugs| == 1
    requires FindEdge(n, OwnKeys(n.order), slugs[0], rx) < |OwnKeys(n.order)|
    ensures var k := OwnKeys(n.order)[FindEdge(n, OwnKeys(n.order), slugs[0], rx)];
            var c := n.edges[k];
            var j := FindTrailing(c, OwnKeys(c.order));
            Match(n, slugs, rx) ==
              if j < |OwnKeys(c.order)| then Some([k, OwnKeys(c.order)[j]])
              else if Truthy(c.path) then Some([k])
              else None
  {
  }

  /** A path that matches keeps matching after `define` of a route that is
      not the empty string and whose tokens are not array indices. */
  lemma {:induction false} DefineKeepsMatch(n: Node, slugs: seq<string>, tokens: seq<string>, route: string, rx: RegexTest)
    requires WF(n)
    requires route != ""
    requires forall i :: 0 <= i < |tokens| ==> !IsArrayIndex(tokens[i])
    requires Match(n, slugs, rx).Some?
    ensures Match(Define(n, tokens, route), slugs, rx).Some?
    decreases |slugs|
  {
    var d := Define(n, tokens, route);
    DefineExtends(n, tokens, route);
    ExtendsFindEdge(n, d, slugs[0], rx);
    var keys := OwnKeys(n.order);
    var k := keys[FindEdge(n, keys, slugs[0], rx)];
    var c, c' := n.edges[k], d.edges[k];
    if |slugs| > 1 {
      MatchDescend(n, slugs, rx);
      MatchDescend(d, slugs, rx);
      if |tokens| > 0 && k == tokens[0] {
        DefineKeepsMatch(c, slugs[1..], tokens[1..], route, rx);
      }
    } else {
      MatchLast(n, slugs, rx);
      MatchLast(d, slugs, rx);
      if |tokens| > 0 && k == tokens[0] {
        DefineExtends(c, tokens[1..], route);
        if FindTrailing(c, OwnKeys(c.order)) < |OwnKeys(c.order)| {
          ExtendsFindTrailing(c, c');
        }
      }
    }
  }

  /** For a router: defining one more route keeps every matching path
      matching, under the same conditions. */
  lemma DefineMoreKeepsMatch(routes: seq<string>, route: string, path: string, rx: RegexTest)
    requires route != ""
    requires forall i :: 0 <= i < |Slugify(route)| ==> !IsArrayIndex(Slugify(route)[i])
    requires Match(Build(routes), Slugify(path), rx).Some?
    ensures Match(Build(routes + [route]), Slugify(path), rx).Some?
  {
    BuildWF(routes);
    assert (routes + [route])[..|routes|] == routes;
    DefineKeepsMatch(Build(routes), Slugify(path), Slugify(route), route, rx);
  }
}
