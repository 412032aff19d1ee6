/** The `Trie` class itself: one object per node, whose `define` creates
    edges in place and stamps the route, and whose `match` walks the edges
    with two `find` loops over `Object.keys`. Each object carries the value
    it stands for (`Model`, a `TrieModel.Node`) and the objects below it
    (`Repr`); the methods are proved against the functions of `TrieModel`. */
module Router {
  import opened Js
  import opened Tokenizer
  import opened QueryString
  import opened Classifier
  import TrieModel

  class Trie {
    var status: bv8
    var pattern: string
    /** How many edges `_define` has created on this node. */
    var prefixes: nat
    var path: Option<string>
    var edges: map<string, Trie>
    /** The keys of `edges` in insertion order, which `Object.keys` reads. */
    var order: seq<string>

    ghost var Model: TrieModel.Node
    ghost var Repr: set<object>

    /** The fields agree with `Model`, every child is a valid object of its
        own whose value is the child node of `Model`, and distinct children
        share no objects. */
    ghost predicate Valid()
      reads this, Repr
      decreases Repr
    {
      && this in Repr
      && Model.status == status && Model.pattern == pattern
      && Model.path == path && Model.order == order
      && edges.Keys == Model.edges.Keys
      && prefixes == |order|
      && TrieModel.LocalWF(Model)
      && (forall k | k in edges ::
            && edges[k] in Repr && edges[k].Repr <= Repr && this !in edges[k].Repr
            && edges[k].Valid() && edges[k].Model == Model.edges[k])
      && (forall k, l | k in edges && l in edges && k != l :: edges[k].Repr !! edges[l].Repr)
    }

    /** `prefixes` counts the edges: the key order lists each edge once. */
    lemma PrefixesCount()
      requires Valid()
      ensures prefixes == |edges|
    {
      TrieModel.EdgeCount(Model);
      assert edges.Keys == Model.edges.Keys;
    }

    /** `new Trie(options)`. */
    constructor (o: Options)
      ensures Valid() && fresh(Repr)
      ensures Model == TrieModel.Fresh(o)
    {
      status, pattern, prefixes, path := o.status, o.pattern, 0, None;
      edges, order := map[], [];
      Model := TrieModel.Fresh(o);
      Repr := {this};
    }

    /** `new Trie()`: the root, whose status and pattern are left unset. */
    constructor Root()
      ensures Valid() && fresh(Repr)
      ensures Model == TrieModel.Root()
    {
      status, pattern, prefixes, path := 0, "", 0, None;
      edges, order := map[], [];
      Model := TrieModel.Root();
      Repr := {this};
    }

    /** A child whose objects have not changed is as valid as it was. */
    twostate lemma KeepChild(c: Trie)
      requires old(c.Valid()) && unchanged(old(c.Repr))
      ensures c.Valid() && c.Model == old(c.Model) && c.Repr == old(c.Repr)
    {
    }

    /** When only this object has changed, every child it had is as valid
        as it was. */
    twostate lemma ChildrenKept()
      requires old(Valid()) && unchanged(old(Repr) - {this})
      ensures forall k | k in old(edges) ::
                old(edges)[k].Valid() && old(edges)[k].Repr == old(edges[k].Repr) && old(edges)[k].Model == old(edges[k].Model)
    {
      forall k | k in old(edges)
        ensures old(edges)[k].Valid() && old(edges)[k].Repr == old(edges[k].Repr) && old(edges)[k].Model == old(edges[k].Model)
      {
        KeepChild(old(edges)[k]);
      }
    }

    /** An unchanged object still designates the same object at an address. */
    twostate lemma KeepAt(a: seq<string>)
      requires old(Valid()) && unchanged(old(Repr))
      ensures Valid() && At(a) == old(At(a))
    {
    }

    /** The object at an address below this one, `null` if there is none. */
    ghost function At(a: seq<string>): (r: Trie?)
      requires Valid()
      reads this, Repr
      decreases |a|
      ensures r != null <==> TrieModel.NodeAt(Model, a).Some?
    {
      if |a| == 0 then this
      else if a[0] in edges then edges[a[0]].At(a[1..])
      else null
    }

    /** The object at an address is a valid part of this one, and stands for
        the node at that address. */
    lemma {:induction false} AtFacts(a: seq<string>)
      requires Valid() && At(a) != null
      decreases |a|
      ensures At(a) in Repr && At(a).Repr <= Repr && At(a).Valid()
      ensures At(a).Model == TrieModel.NodeAt(Model, a).value
    {
      if |a| > 0 {
        edges[a[0]].AtFacts(a[1..]);
      }
    }

    /** One step down an address. */
    lemma AtStep(a: seq<string>)
      requires Valid() && |a| > 0 && a[0] in edges
      ensures At(a) == edges[a[0]].At(a[1..])
    {
    }

    /** Every key `Object.keys` lists is a key of `edges`. */
    lemma KeysInEdges()
      requires Valid()
      ensures forall i :: 0 <= i < |OwnKeys(order)| ==> OwnKeys(order)[i] in edges
    {
      forall i | 0 <= i < |OwnKeys(order)| ensures OwnKeys(order)[i] in edges {
        OwnKeysMembers(order, OwnKeys(order)[i]);
      }
    }

    /** A child's fields are those of the child's value. */
    lemma ChildOptions(k: string)
      requires Valid() && k in edges
      ensures Options(edges[k].status, edges[k].pattern) == TrieModel.OptionsOf(Model.edges[k])
    {
    }

    /** `Object.keys(this.edges).map(...).find(node => Trie.matchSlug(slug, node))`:
        the position, in `Object.keys` order, of the first child accepting
        `slug` (the number of keys when none does). */
    method FindChild(slug: string, rx: RegexTest) returns (i: nat)
      requires Valid()
      ensures i == TrieModel.FindEdge(Model, OwnKeys(Model.order), slug, rx)
    {
      var keys := OwnKeys(order);
      KeysInEdges();
      i := 0;
      while i < |keys|
        invariant i <= |keys|
        invariant forall j :: 0 <= j < i ==> !TrieModel.Accepts(Model, keys[j], slug, rx)
      {
        var node := edges[keys[i]];
        ChildOptions(keys[i]);
        if MatchSlug(slug, Options(node.status, node.pattern), rx) {
          break;
        }
        i := i + 1;
      }
      TrieModel.FindEdgeIs(Model, keys, slug, rx, i);
    }

    /** `Object.keys(node.edges).map(...).find(n => n.status & STATUS.PAT_TRAILING_WILDCARD)`:
        the position of the first child with the trailing-wildcard bit. */
    method FindTrailingChild() returns (j: nat)
      requires Valid()
      ensures j == TrieModel.FindTrailing(Model, OwnKeys(Model.order))
    {
      var keys := OwnKeys(order);
      KeysInEdges();
      j := 0;
      while j < |keys|
        invariant j <= |keys|
        invariant forall i :: 0 <= i < j ==> !TrieModel.IsTrailing(Model, keys[i])
      {
        var node := edges[keys[j]];
        ChildOptions(keys[j]);
        if HasTrailingBit(node.status) {
          break;
        }
        j := j + 1;
      }
      TrieModel.FindTrailingIs(Model, keys, j);
    }

    /** The object at the address `TrieModel.Match` finds, `null` if none. */
    ghost function MatchAt(slugs: seq<string>, rx: RegexTest): (r: Trie?)
      requires Valid()
      reads this, Repr
      ensures r == null <==> TrieModel.Match(Model, slugs, rx).None?
    {
      var m := TrieModel.Match(Model, slugs, rx);
      if m.Some? then At(m.value) else null
    }

    /** `_match(slugs)`: the matched object, `null` when nothing matches. */
    method MatchSlugs(slugs: seq<string>, rx: RegexTest) returns (r: Trie?)
      requires Valid()
      decreases |slugs|, 0
      ensures r == MatchAt(slugs, rx)
    {
      if |slugs| == 0 {
        return null;
      }
      var keys := OwnKeys(order);
      var i := FindChild(slugs[0], rx);
      if i >= |keys| {
        return null;
      }
      KeysInEdges();
      r := edges[keys[i]].MatchBelow(slugs[1..], rx);
      if |slugs| > 1 {
        MatchStep(slugs, rx);
      } else {
        MatchLastStep(slugs, rx);
      }
    }

    /** What `_match` goes on to return from the accepting child once the
        first token has been taken. */
    ghost function BelowAt(rest: seq<string>, rx: RegexTest): (r: Trie?)
      requires Valid()
      reads this, Repr
    {
      if |rest| == 0 then EndAt() else MatchAt(rest, rx)
    }

    /** The `if (slugs.length)` split of `_match` on the accepting child. */
    method MatchBelow(rest: seq<string>, rx: RegexTest) returns (r: Trie?)
      requires Valid()
      decreases |rest|, 1
      ensures r == BelowAt(rest, rx)
    {
      if |rest| == 0 {
        r := MatchEnd();
      } else {
        r := MatchSlugs(rest, rx);
      }
    }

    /** What `_match` returns once the last token has reached this object: a
        trailing-wildcard child first, then this object if its path is
        truthy, and `null` otherwise. */
    ghost function EndAt(): (r: Trie?)
      requires Valid()
      reads this, Repr
    {
      var ks := OwnKeys(order);
      var j := TrieModel.FindTrailing(Model, ks);
      if j < |ks| then KeysInEdges(); edges[ks[j]]
      else if Truthy(path) then this
      else null
    }

    /** The tail of `_match` after the last token. */
    method MatchEnd() returns (r: Trie?)
      requires Valid()
      ensures r == EndAt()
    {
      var j := FindTrailingChild();
      var keys := OwnKeys(order);
      KeysInEdges();
      if j < |keys| {
        r := edges[keys[j]];
      } else if Truthy(path) {
        r := this;
      } else {
        r := null;
      }
    }

    /** The descent through the first accepting child. */
    lemma MatchStep(slugs: seq<string>, rx: RegexTest)
      requires Valid() && |slugs| > 1
      requires TrieModel.FindEdge(Model, OwnKeys(order), slugs[0], rx) < |OwnKeys(order)|
      ensures var k := OwnKeys(order)[TrieModel.FindEdge(Model, OwnKeys(order), slugs[0], rx)];
              k in edges && MatchAt(slugs, rx) == edges[k].MatchAt(slugs[1..], rx)
    {
      var k := OwnKeys(order)[TrieModel.FindEdge(Model, OwnKeys(order), slugs[0], rx)];
      KeysInEdges();
      TrieModel.MatchDescend(Model, slugs, rx);
      var m := TrieModel.Match(edges[k].Model, slugs[1..], rx);
      if m.Some? {
        AtCons(k, m.value);
      }
    }

    /** The last token: the accepting child decides by its own edges and path. */
    lemma MatchLastStep(slugs: seq<string>, rx: RegexTest)
      requires Valid() && |slugs| == 1
      requires TrieModel.FindEdge(Model, OwnKeys(order), slugs[0], rx) < |OwnKeys(order)|
      ensures var k := OwnKeys(order)[TrieModel.FindEdge(Model, OwnKeys(order), slugs[0], rx)];
              k in edges && MatchAt(slugs, rx) == edges[k].EndAt()
    {
      var k := OwnKeys(order)[TrieModel.FindEdge(Model, OwnKeys(order), slugs[0], rx)];
      KeysInEdges();
      var c := edges[k];
      c.KeysInEdges();
      TrieModel.MatchLast(Model, slugs, rx);
      var ckeys := OwnKeys(c.order);
      var j := TrieModel.FindTrailing(c.Model, ckeys);
      if j < |ckeys| {
        AtCons(k, [ckeys[j]]);
        c.AtCons(ckeys[j], []);
      } else {
        AtCons(k, []);
      }
    }

    lemma AtCons(k: string, a: seq<string>)
      requires Valid() && k in edges
      ensures At([k] + a) == edges[k].At(a)
    {
      assert ([k] + a)[0] == k && ([k] + a)[1..] == a;
    }

    /** `match(path)`. */
    method Match(path: string, rx: RegexTest) returns (r: Trie?)
      requires Valid()
      ensures r == MatchAt(Slugify(path), rx)
    {
      r := MatchSlugs(Slugify(path), rx);
    }

    /** The `!this.edges[firstSlug]` branch of `_define`: the new child `c`
        (built from `Trie.parse(key)`) is stored under `key`, listed last in
        insertion order and counted in `prefixes`. */
    method AddEdge(key: string, c: Trie)
      requires Valid() && key !in edges
      requires c.Valid() && c.Repr !! Repr && c.Model == TrieModel.Fresh(Parse(key))
      modifies this
      ensures Valid()
      ensures edges == old(edges)[key := c] && Repr == old(Repr) + c.Repr
      ensures Model == old(Model).(order := old(Model.order) + [key],
                                   edges := old(Model.edges)[key := TrieModel.Fresh(Parse(key))])
    {
      prefixes, edges, order, Repr, Model :=
        prefixes + 1, edges[key := c], order + [key], Repr + c.Repr,
        Model.(order := Model.order + [key], edges := Model.edges[key := c.Model]);
      ChildrenKept();
      KeepChild(c);
      Added(key);
    }

    /** `if (!this.edges[firstSlug]) { ... }`: the edge for `key` exists
        afterwards, and is created from `Trie.parse(key)` when it did not. */
    method EnsureEdge(key: string, ghost outside: set<object>)
      requires Valid() && outside !! Repr
      modifies this
      ensures Valid() && outside !! Repr && fresh(Repr - old(Repr)) && key in edges
      ensures Model == if key in old(Model.edges) then old(Model)
                       else old(Model).(order := old(Model.order) + [key],
                                        edges := old(Model.edges)[key := TrieModel.Fresh(Parse(key))])
    {
      if key !in edges {
        var c := new Trie(Parse(key));
        AddEdge(key, c);
      }
    }

    /** A valid object that gains a new child under `key`, apart from all its
        objects, is valid again. */
    twostate lemma Added(key: string)
      requires old(Valid()) && key !in old(edges) && key in edges
      requires edges == old(edges)[key := edges[key]]
      requires status == old(status) && pattern == old(pattern) && path == old(path)
      requires prefixes == old(prefixes) + 1 && order == old(order) + [key]
      requires Repr == old(Repr) + edges[key].Repr && edges[key].Repr !! old(Repr)
      requires Model == old(Model).(order := old(Model.order) + [key], edges := old(Model.edges)[key := edges[key].Model])
      requires edges[key].Valid()
      requires forall k | k in old(edges) ::
                 old(edges)[k].Valid() && old(edges)[k].Repr == old(edges[k].Repr) && old(edges)[k].Model == old(edges[k].Model)
      ensures Valid()
    {
      AddedChildren(key);
      AddedDisjoint(key);
    }

    /** The disjointness part of `Added`. */
    twostate lemma AddedDisjoint(key: string)
      requires old(Valid()) && key !in old(edges) && key in edges
      requires edges == old(edges)[key := edges[key]]
      requires edges[key].Repr !! old(Repr)
      requires forall k | k in old(edges) :: old(edges)[k].Repr == old(edges[k].Repr)
      ensures forall k, l | k in edges && l in edges && k != l :: edges[k].Repr !! edges[l].Repr
    {
    }

    /** The children part of `Added`. */
    twostate lemma AddedChildren(key: string)
      requires old(Valid()) && key !in old(edges) && key in edges
      requires edges == old(edges)[key := edges[key]]
      requires Repr == old(Repr) + edges[key].Repr && edges[key].Repr !! old(Repr)
      requires Model.edges == old(Model.edges)[key := edges[key].Model]
      requires edges[key].Valid()
      requires forall k | k in old(edges) ::
                 old(edges)[k].Valid() && old(edges)[k].Repr == old(edges[k].Repr) && old(edges)[k].Model == old(edges[k].Model)
      ensures forall k | k in edges ::
                && edges[k] in Repr && edges[k].Repr <= Repr && this !in edges[k].Repr
                && edges[k].Valid() && edges[k].Model == Model.edges[k]
    {
    }

    /** `_define(slugs)` followed by `def.path = route`: the route is stamped
        when the descent reaches the last node, so that the value of every
        object on the way is up to date when the call returns. */
    method DefineSlugs(slugs: seq<string>, route: string, ghost outside: set<object>) returns (def: Trie)
      requires Valid() && outside !! Repr
      modifies Repr
      decreases |slugs|, 2
      ensures Valid() && outside !! Repr
      ensures Model == TrieModel.Define(old(Model), slugs, route)
      ensures def == At(slugs) && def in Repr && def.path == Some(route)
    {
      if |slugs| == 0 {
        SetPath(route);
        return this;
      }
      def := DefineFirst(slugs, route, outside);
    }

    /** `_define` on a non-empty token list: take the first token, create its
        edge if it is missing, and define the rest below it. */
    method DefineFirst(slugs: seq<string>, route: string, ghost outside: set<object>) returns (def: Trie)
      requires Valid() && |slugs| > 0 && outside !! Repr
      modifies Repr
      decreases |slugs|, 1
      ensures Valid() && outside !! Repr
      ensures Model == TrieModel.Define(old(Model), slugs, route)
      ensures def == At(slugs) && def in Repr && def.path == Some(route)
    {
      ghost var m0 := Model;
      var key := slugs[0];
      EnsureEdge(key, outside);
      TrieModel.DefineUnfold(m0, slugs, route, Model);
      def := Descend(key, slugs[1..], route, outside);
      AtStep(slugs);
    }

    /** `def.path = route` on the object the tokens lead to. */
    method SetPath(route: string)
      requires Valid()
      modifies this
      ensures Valid() && Repr == old(Repr) && edges == old(edges)
      ensures Model == old(Model).(path := Some(route)) && path == Some(route)
    {
      path, Model := Some(route), Model.(path := Some(route));
      ChildrenKept();
    }

    /** `this.edges[firstSlug]._define(slugs)`, the recursive step of `_define`. */
    method Descend(key: string, rest: seq<string>, route: string, ghost outside: set<object>) returns (def: Trie)
      requires Valid() && key in edges && outside !! Repr
      modifies Repr
      decreases |rest| + 1, 0
      ensures Valid() && outside !! Repr
      ensures edges == old(edges)
      ensures Model == old(Model).(edges := old(Model.edges)[key := TrieModel.Define(old(Model.edges[key]), rest, route)])
      ensures def == edges[key].At(rest) && def in Repr && def.path == Some(route)
    {
      var child := edges[key];
      def := child.DefineSlugs(rest, route, outside + (Repr - child.Repr));
      StaleAfter(key);
      Absorb(key, rest, def);
    }

    /** This object is valid but for the child under `key`, which is valid
        and apart from its siblings but whose objects and value this object
        has not taken in yet. */
    ghost predicate Stale(key: string)
      reads this, Repr, if key in edges then {edges[key]} + edges[key].Repr else {}
    {
      && key in edges
      && this in Repr
      && Model.status == status && Model.pattern == pattern
      && Model.path == path && Model.order == order
      && edges.Keys == Model.edges.Keys
      && prefixes == |order|
      && TrieModel.LocalWF(Model)
      && (forall k | k in edges && k != key ::
            && edges[k] in Repr && edges[k].Repr <= Repr && this !in edges[k].Repr
            && edges[k].Valid() && edges[k].Model == Model.edges[k])
      && this !in edges[key].Repr && edges[key].Valid()
      && (forall k, l | k in edges && l in edges && k != l :: edges[k].Repr !! edges[l].Repr)
    }

    /** After the child under `key` has changed on its own, this object is
        stale at `key`. */
    twostate lemma StaleAfter(key: string)
      requires old(Valid()) && key in old(edges)
      requires unchanged(old(Repr) - old(edges[key].Repr))
      requires edges[key].Valid() && edges[key].Repr !! old(Repr) - old(edges[key].Repr)
      ensures Stale(key)
    {
      StaleSiblings(key);
    }

    /** The siblings part of `StaleAfter`. */
    twostate lemma StaleSiblings(key: string)
      requires old(Valid()) && key in old(edges)
      requires unchanged(old(Repr) - old(edges[key].Repr))
      ensures forall k | k in edges && k != key ::
                && edges[k] in Repr && edges[k].Repr <= Repr && this !in edges[k].Repr
                && edges[k].Valid() && edges[k].Model == Model.edges[k]
    {
      forall k | k in edges && k != key
        ensures edges[k].Valid() && edges[k].Model == old(edges[k].Model) && edges[k].Repr == old(edges[k].Repr)
      {
        KeepChild(edges[k]);
      }
    }

    /** The bookkeeping after `_define` returns from the child under `key`:
        this object takes in the child's objects and value. */
    method Absorb(key: string, ghost rest: seq<string>, ghost d: Trie)
      requires Stale(key) && edges[key].At(rest) == d && d in edges[key].Repr
      modifies this
      ensures Valid()
      ensures edges == old(edges) && Repr == old(Repr) + old(edges[key].Repr)
      ensures Model == old(Model).(edges := old(Model.edges)[key := old(edges[key].Model)])
      ensures edges[key].At(rest) == d && d.path == old(d.path)
    {
      Repr, Model := Repr + edges[key].Repr, Model.(edges := Model.edges[key := edges[key].Model]);
      StaleKept(key);
      edges[key].KeepAt(rest);
      Absorbed(key);
    }

    /** Changing only this object keeps every child of a stale object. */
    twostate lemma StaleKept(key: string)
      requires old(Stale(key)) && edges == old(edges)
      requires unchanged(old(Repr) + old(edges[key].Repr) - {this})
      ensures forall k | k in edges ::
                edges[k].Valid() && edges[k].Model == old(edges[k].Model) && edges[k].Repr == old(edges[k].Repr)
    {
      forall k | k in edges
        ensures edges[k].Valid() && edges[k].Model == old(edges[k].Model) && edges[k].Repr == old(edges[k].Repr)
      {
        KeepChild(edges[k]);
      }
    }

    /** A stale object that takes in the objects and value of its stale child
        is valid again. */
    twostate lemma Absorbed(key: string)
      requires old(Stale(key)) && edges == old(edges)
      requires status == old(status) && pattern == old(pattern) && path == old(path)
      requires order == old(order) && prefixes == old(prefixes)
      requires Repr == old(Repr) + old(edges[key].Repr)
      requires Model == old(Model).(edges := old(Model.edges)[key := old(edges[key].Model)])
      requires forall k | k in edges ::
                 edges[k].Valid() && edges[k].Model == old(edges[k].Model) && edges[k].Repr == old(edges[k].Repr)
      ensures Valid()
    {
      AbsorbedChildren(key);
    }

    /** The children part of `Absorbed`. */
    twostate lemma AbsorbedChildren(key: string)
      requires old(Stale(key)) && edges == old(edges)
      requires Repr == old(Repr) + old(edges[key].Repr)
      requires Model.edges == old(Model.edges)[key := old(edges[key].Model)]
      requires forall k | k in edges ::
                 edges[k].Valid() && edges[k].Model == old(edges[k].Model) && edges[k].Repr == old(edges[k].Repr)
      ensures forall k | k in edges ::
                && edges[k] in Repr && edges[k].Repr <= Repr && this !in edges[k].Repr
                && edges[k].Valid() && edges[k].Model == Model.edges[k]
    {
    }

    /** `define(route)`: the object registered for the route's tokens. */
    method Define(route: string) returns (def: Trie)
      requires Valid()
      modifies Repr
      ensures Valid()
      ensures Model == TrieModel.Define(old(Model), Slugify(route), route)
      ensures def == At(Slugify(route)) && def in Repr && def.path == Some(route)
    {
      def := DefineSlugs(Slugify(route), route, {});
    }
  }
}
