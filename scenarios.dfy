/** Concrete routers: the assertions of the project's own test suite, and
    the routers that show where the general lemmas stop holding. An
    assertion about a `(...)` route holds for every regex test `rx` or is
    stated relative to what `rx` says of the test's pattern. Each scenario
    takes its routes as parameters fixed by their tokens; the `Tokens` lemmas show that the
    test suite's route strings have those tokens. Request paths are written
    as their tokens; the `TokensRequest` and `TokensMixed` lemmas give the
    tokens of the test suite's request paths, and `TokensWord`,
    `TokensWordSlash` and `TokensSegmentsQuery` those of whole families of
    them. */
module Scenarios {
  import opened Js
  import opened Tokenizer
  import opened QueryString
  import opened Classifier
  import opened TrieModel

  // ---------------------------------------------------------------------
  // Tokens of the routes used below.

  /** A path of one segment. */
  lemma TokensWord(w: string)
    requires '/' !in w && '?' !in w
    ensures Slugify("/" + w) == [w]
  {
    SlugifyPath([w]);
  }

  /** A path of one segment and a trailing `/`. */
  lemma TokensWordSlash(w: string)
    requires '/' !in w && '?' !in w
    ensures Slugify("/" + w + "/") == [w, ""]
  {
    JoinStep(w, [""]);
    SlugifyPath([w, ""]);
    assert "/" + Join([w, ""], '/') == "/" + w + "/";
  }

  /** The one-segment paths of the tests: the route `/home` and the
      requests `/product`, `/items` and `/homes`. */
  lemma TokensWordPaths()
    ensures Slugify("/home") == ["home"] && Slugify("/product") == ["product"]
    ensures Slugify("/items") == ["items"] && Slugify("/homes") == ["homes"]
  {
    TokensWord("home");
    assert "/" + "home" == "/home";
    TokensWord("product");
    assert "/" + "product" == "/product";
    TokensWord("items");
    assert "/" + "items" == "/items";
    TokensWord("homes");
    assert "/" + "homes" == "/homes";
  }

  /** The route `/home/` and the request `/product/` end in an empty token. */
  lemma TokensSlashPaths()
    ensures Slugify("/home/") == ["home", ""] && Slugify("/product/") == ["product", ""]
  {
    TokensWordSlash("home");
    assert "/" + "home" + "/" == "/home/";
    TokensWordSlash("product");
    assert "/" + "product" + "/" == "/product/";
  }

  lemma TokensShoes()
    ensures Slugify("/product/shoes/1/details") == ["product", "shoes", "1", "details"]
  {
    var segs := ["product", "shoes", "1", "details"];
    JoinStep("1", ["details"]);
    JoinStep("shoes", ["1", "details"]);
    JoinStep("product", ["shoes", "1", "details"]);
    assert Join(segs, '/') == "product/shoes/1/details";
    SlugifyPath(segs);
  }

  /** Joining one more segment in front. */
  lemma JoinStep(p: string, ps: seq<string>)
    requires |ps| >= 1
    ensures Join([p] + ps, '/') == p + "/" + Join(ps, '/')
  {
    assert ([p] + ps)[1..] == ps;
  }

  lemma TokensSlash()
    ensures Slugify("/") == [""]
  {
    SlugifyPath([""]);
    assert "/" + "" == "/";
  }

  lemma TokensEmpty()
    ensures Slugify("") == [""]
  {
  }

  lemma TokensProductTrailing()
    ensures Slugify("/product/?*") == ["product", "", "?*"]
  {
    var segs := ["product", ""];
    assert Join(segs, '/') == "product/";
    SlugifyPathQuery(segs, "*");
    assert "/" + "product/" + "?" + "*" == "/product/?*";
    assert QueryToken("*") == "?*";
  }

  lemma TokensItemsTrailing()
    ensures Slugify("/items?*") == ["items", "?*"]
  {
    SlugifyPathQuery(["items"], "*");
    assert "/" + "items" + "?" + "*" == "/items?*";
    assert QueryToken("*") == "?*";
  }

  lemma TokensProductWildcard()
    ensures Slugify("/product/*/") == ["product", "*", ""]
  {
    var segs := ["product", "*", ""];
    assert Join(segs, '/') == "product/*/";
    SlugifyPath(segs);
  }

  lemma TokensProductWildcardDetails()
    ensures Slugify("/product/*/details") == ["product", "*", "details"]
  {
    var segs := ["product", "*", "details"];
    assert Join(segs, '/') == "product/*/details";
    SlugifyPath(segs);
  }

  // The request paths of the tests, as the tokens the scenarios below use.

  lemma TokensRequestProductThree()
    ensures Slugify("/product/3/") == ["product", "3", ""]
  {
    JoinStep("3", [""]);
    JoinStep("product", ["3", ""]);
    assert Join(["product", "3", ""], '/') == "product/3/";
    SlugifyPath(["product", "3", ""]);
  }

  lemma TokensRequestItemsQuery()
    ensures Slugify("/items?id=3") == ["items", "?id=3"]
  {
    SlugifyPathQuery(["items"], "id=3");
    SpellRequestItemsQuery();
  }

  lemma SpellRequestItemsQuery()
    ensures "/" + "items" + "?" + "id=3" == "/items?id=3"
    ensures QueryToken("id=3") == "?id=3"
  {
  }

  lemma TokensRequestProductId()
    ensures Slugify("/product/?id=3") == ["product", "", "?id=3"]
  {
    TokensProductQuery("id=3");
    SpellRequestProductId();
  }

  lemma SpellRequestProductId()
    ensures "/product/?" + "id=3" == "/product/?id=3"
    ensures "?" + "id=3" == "?id=3"
  {
  }

  /** Only the empty route has the single empty token and is empty. */
  lemma NonEmptyRoute(r: string)
    requires Slugify(r) != [""]
    ensures r != ""
  {
  }

  // ---------------------------------------------------------------------
  // Literal routes, through the general theorem.

  lemma IsLiteral(r: string, tokens: seq<string>)
    requires Slugify(r) == tokens
    requires forall i :: 0 <= i < |tokens| ==> tokens[i] == "" || IsWordSlug(tokens[i])
    ensures LiteralRoute(r)
  {
  }

  /** A router with `/home` does not match `/product`. */
  lemma NoMatchedRule(home: string, rx: RegexTest)
    requires Slugify(home) == ["home"]
    ensures Match(Build([home]), ["product"], rx) == None
  {
    assert IsWordSlug("home");
    IsLiteral(home, ["home"]);
    LiteralRoutesMatchTokens([home], ["product"], rx);
  }

  /** With `/home` and `/product/shoes/1/details`, both match, at the node
      carrying the route. */
  lemma StringRules(home: string, shoes: string, rx: RegexTest)
    requires Slugify(home) == ["home"]
    requires Slugify(shoes) == ["product", "shoes", "1", "details"]
    ensures var t := Build([home, shoes]);
            && Match(t, ["home"], rx) == Some(["home"])
            && PathAt(t, ["home"]) == Some(home)
            && Match(t, ["product", "shoes", "1", "details"], rx) == Some(["product", "shoes", "1", "details"])
            && PathAt(t, ["product", "shoes", "1", "details"]) == Some(shoes)
  {
    StringRulesRoutes(home, shoes);
    LiteralRoutesMatchTokens([home, shoes], ["home"], rx);
    LiteralRoutesMatchTokens([home, shoes], ["product", "shoes", "1", "details"], rx);
  }

  lemma StringRulesRoutes(home: string, shoes: string)
    requires Slugify(home) == ["home"]
    requires Slugify(shoes) == ["product", "shoes", "1", "details"]
    ensures LiteralRoute(home) && LiteralRoute(shoes)
    ensures LastWith([home, shoes], ["home"]) == Some(home)
    ensures LastWith([home, shoes], ["product", "shoes", "1", "details"]) == Some(shoes)
  {
    StringRulesLiteral(home, shoes);
    NonEmptyRoute(home);
    NonEmptyRoute(shoes);
    assert [home, shoes][..1] == [home];
  }

  /** Both routes of the string-rules test are literal. */
  lemma StringRulesLiteral(home: string, shoes: string)
    requires Slugify(home) == ["home"]
    requires Slugify(shoes) == ["product", "shoes", "1", "details"]
    ensures LiteralRoute(home) && LiteralRoute(shoes)
  {
    assert IsWordSlug("home");
    assert IsWordSlug("product") && IsWordSlug("shoes") && IsWordSlug("1") && IsWordSlug("details");
    IsLiteral(home, ["home"]);
    IsLiteral(shoes, ["product", "shoes", "1", "details"]);
  }

  /** With `/home/`, the path `/home/` matches and `/home` does not. */
  lemma SlashSensitive(homeSlash: string, rx: RegexTest)
    requires Slugify(homeSlash) == ["home", ""]
    ensures Match(Build([homeSlash]), ["home", ""], rx) == Some(["home", ""])
    ensures Match(Build([homeSlash]), ["home"], rx) == None
  {
    assert IsWordSlug("home");
    IsLiteral(homeSlash, ["home", ""]);
    NonEmptyRoute(homeSlash);
    LiteralRoutesMatchTokens([homeSlash], ["home", ""], rx);
    LiteralRoutesMatchTokens([homeSlash], ["home"], rx);
  }

  /** `define('')` stamps the empty string, which is falsy, on the node of
      `/`: the path `/` matched before and does not after. */
  lemma EmptyRouteUnsets(slash: string, rx: RegexTest)
    requires Slugify(slash) == [""] && slash != ""
    ensures Match(Build([slash]), [""], rx) == Some([""])
    ensures Match(Build([slash, ""]), [""], rx) == None
  {
    IsLiteral(slash, [""]);
    LiteralRoutesMatchTokens([slash], [""], rx);
    EmptyRouteLast(slash, rx);
  }

  lemma EmptyRouteLast(slash: string, rx: RegexTest)
    requires Slugify(slash) == [""] && slash != ""
    ensures Match(Build([slash, ""]), [""], rx) == None
  {
    TokensEmpty();
    IsLiteral(slash, [""]);
    IsLiteral("", [""]);
    assert LastWith([slash, ""], [""]) == Some("");
    LiteralRoutesMatchTokens([slash, ""], [""], rx);
  }

  // ---------------------------------------------------------------------
  // Trailing wildcards: `/product/?*` and `/items?*`, through the general
  // theorem on static routes.

  /** The two routes are static, and the last route with each address. */
  lemma TrailingRoutes(r1: string, r2: string)
    requires Slugify(r1) == ["product", "", "?*"]
    requires Slugify(r2) == ["items", "?*"]
    ensures StaticRoute(r1) && StaticRoute(r2)
    ensures LastWith([r1, r2], ["product", "", "?*"]) == Some(r1)
    ensures LastWith([r1, r2], ["items", "?*"]) == Some(r2)
  {
    assert IsWordSlug("product") && IsWordSlug("items");
    assert [r1, r2][..1] == [r1];
    assert [r1][..0] == [];
  }

  /** Neither route has the tokens `a`. */
  lemma TrailingOther(r1: string, r2: string, a: seq<string>)
    requires Slugify(r1) == ["product", "", "?*"]
    requires Slugify(r2) == ["items", "?*"]
    requires a != ["product", "", "?*"] && a != ["items", "?*"]
    ensures LastWith([r1, r2], a) == None
  {
    assert [r1, r2][..1] == [r1];
    assert [r1][..0] == [];
  }

  lemma IsQuery(q: string)
    requires |q| > 0 && q[0] == '?'
    ensures StartsWith(q, '?') && !LiteralToken(q)
  {
  }

  lemma MatchProductSlash(r1: string, r2: string, rx: RegexTest)
    requires Slugify(r1) == ["product", "", "?*"]
    requires Slugify(r2) == ["items", "?*"]
    ensures Match(Build([r1, r2]), ["product", ""], rx) == Some(["product", "", "?*"])
  {
    var slugs := ["product", ""];
    TrailingRoutes(r1, r2);
    assert slugs[..1] == ["product"] && slugs + ["?*"] == ["product", "", "?*"];
    assert AllLiteral(["product"]);
    StaticRoutesMatch([r1, r2], slugs, rx);
  }

  lemma MatchProductQuery(r1: string, r2: string, q: string, rx: RegexTest)
    requires Slugify(r1) == ["product", "", "?*"]
    requires Slugify(r2) == ["items", "?*"]
    requires |q| > 0 && q[0] == '?'
    ensures Match(Build([r1, r2]), ["product", "", q], rx) == Some(["product", "", "?*"])
  {
    var slugs := ["product", "", q];
    TrailingRoutes(r1, r2);
    IsQuery(q);
    assert slugs[..2] == ["product", ""] && slugs[..2] + ["?*"] == ["product", "", "?*"];
    assert AllLiteral(["product", ""]);
    StaticRoutesMatch([r1, r2], slugs, rx);
  }

  lemma MatchItems(r1: string, r2: string, rx: RegexTest)
    requires Slugify(r1) == ["product", "", "?*"]
    requires Slugify(r2) == ["items", "?*"]
    ensures Match(Build([r1, r2]), ["items"], rx) == Some(["items", "?*"])
  {
    var slugs := ["items"];
    TrailingRoutes(r1, r2);
    assert slugs[..0] == [] && slugs + ["?*"] == ["items", "?*"];
    StaticRoutesMatch([r1, r2], slugs, rx);
  }

  lemma MatchItemsQuery(r1: string, r2: string, q: string, rx: RegexTest)
    requires Slugify(r1) == ["product", "", "?*"]
    requires Slugify(r2) == ["items", "?*"]
    requires |q| > 0 && q[0] == '?'
    ensures Match(Build([r1, r2]), ["items", q], rx) == Some(["items", "?*"])
  {
    var slugs := ["items", q];
    TrailingRoutes(r1, r2);
    IsQuery(q);
    assert slugs[..1] == ["items"] && slugs[..1] + ["?*"] == ["items", "?*"];
    assert AllLiteral(["items"]);
    StaticRoutesMatch([r1, r2], slugs, rx);
  }

  /** A static router answers `None` to a literal request when no route has
      its tokens, with or without a trailing `?*`. */
  lemma StaticNone(routes: seq<string>, slugs: seq<string>, rx: RegexTest)
    requires forall i :: 0 <= i < |routes| ==> StaticRoute(routes[i])
    requires |slugs| >= 1 && AllLiteral(slugs[..|slugs| - 1]) && LiteralToken(slugs[|slugs| - 1])
    requires LastWith(routes, slugs) == None && LastWith(routes, slugs + ["?*"]) == None
    ensures Match(Build(routes), slugs, rx) == None
  {
    StaticRoutesMatch(routes, slugs, rx);
  }

  lemma MatchProductThree(r1: string, r2: string, rx: RegexTest)
    requires Slugify(r1) == ["product", "", "?*"]
    requires Slugify(r2) == ["items", "?*"]
    ensures Match(Build([r1, r2]), ["product", "3", ""], rx) == None
  {
    var slugs := ["product", "3", ""];
    TrailingRoutes(r1, r2);
    ProductThreeAbsent(r1, r2);
    assert slugs[..2] == ["product", "3"] && slugs[2] == "";
    assert AllLiteral(["product", "3"]) by {
      assert IsWordSlug("3");
    }
    StaticNone([r1, r2], slugs, rx);
  }

  /** Neither route has the tokens `product`, `3`, `""`, with or without `?*`. */
  lemma ProductThreeAbsent(r1: string, r2: string)
    requires Slugify(r1) == ["product", "", "?*"]
    requires Slugify(r2) == ["items", "?*"]
    ensures LastWith([r1, r2], ["product", "3", ""]) == None
    ensures LastWith([r1, r2], ["product", "3", ""] + ["?*"]) == None
  {
    var slugs := ["product", "3", ""];
    assert slugs + ["?*"] == ["product", "3", "", "?*"];
    assert slugs[1] != ""[..];
    TrailingOther(r1, r2, slugs);
    TrailingOther(r1, r2, slugs + ["?*"]);
  }

  lemma MatchHomes(r1: string, r2: string, rx: RegexTest)
    requires Slugify(r1) == ["product", "", "?*"]
    requires Slugify(r2) == ["items", "?*"]
    ensures Match(Build([r1, r2]), ["homes"], rx) == None
  {
    var slugs := ["homes"];
    TrailingRoutes(r1, r2);
    assert slugs[..0] == [] && slugs + ["?*"] == ["homes", "?*"];
    assert "homes" != "items" by { assert "homes"[0] != "items"[0]; }
    TrailingOther(r1, r2, slugs);
    TrailingOther(r1, r2, slugs + ["?*"]);
    assert IsWordSlug("homes");
    StaticNone([r1, r2], slugs, rx);
  }

  /** With `/product/?*` and `/items?*`: `/product/`, `/product/?id=3`,
      `/items` and `/items?id=3` match, each at the trailing-wildcard node
      that carries its route; `/product/3/` and `/homes` do not match. */
  lemma TrailingWildcard(r1: string, r2: string, rx: RegexTest)
    requires Slugify(r1) == ["product", "", "?*"]
    requires Slugify(r2) == ["items", "?*"]
    ensures var t := Build([r1, r2]);
            && Match(t, ["product", ""], rx) == Some(["product", "", "?*"])
            && Match(t, ["product", "", "?id=3"], rx) == Some(["product", "", "?*"])
            && Match(t, ["items"], rx) == Some(["items", "?*"])
            && Match(t, ["items", "?id=3"], rx) == Some(["items", "?*"])
            && Match(t, ["product", "3", ""], rx) == None
            && Match(t, ["homes"], rx) == None
            && PathAt(t, ["product", "", "?*"]) == Some(r1)
            && PathAt(t, ["items", "?*"]) == Some(r2)
  {
    MatchProductSlash(r1, r2, rx);
    MatchProductQuery(r1, r2, "?id=3", rx);
    MatchItems(r1, r2, rx);
    MatchItemsQuery(r1, r2, "?id=3", rx);
    MatchProductThree(r1, r2, rx);
    MatchHomes(r1, r2, rx);
    TrailingRoutes(r1, r2);
    BuildPathAt([r1, r2], ["product", "", "?*"]);
    BuildPathAt([r1, r2], ["items", "?*"]);
  }

  // ---------------------------------------------------------------------
  // Wildcards: routes ending in `*` then `""`, and `*` then `details`.

  function Leaf(o: Options, route: string): Node
  {
    Node(o.status, o.pattern, Some(route), [], map[])
  }

  function WildcardRouter(r1: string, r2: string): Node
  {
    var star := Node(SLUG_PATH | PAT_WILDCARD, "*", None, ["", "details"], map[
      "" := Leaf(Options(SLUG_PATH | PAT_EMPTY, ""), r1),
      "details" := Leaf(Options(SLUG_PATH | PAT_STR, "details"), r2)]);
    var product := Node(SLUG_PATH | PAT_STR, "product", None, ["*"], map["*" := star]);
    Node(0, "", None, ["product"], map["product" := product])
  }

  lemma ParseWildcardTokens()
    ensures Parse("product") == Options(SLUG_PATH | PAT_STR, "product")
    ensures Parse("details") == Options(SLUG_PATH | PAT_STR, "details")
    ensures Parse("*") == Options(SLUG_PATH | PAT_WILDCARD, "*")
    ensures Parse("") == Options(SLUG_PATH | PAT_EMPTY, "")
  {
    assert IsWordSlug("product") && IsWordSlug("details");
    assert !IsWordSlug("*") by { assert !IsWordChar("*"[0]); }
  }

  function WildcardFirst(r1: string): Node
  {
    var star := Node(SLUG_PATH | PAT_WILDCARD, "*", None, [""], map[
      "" := Leaf(Options(SLUG_PATH | PAT_EMPTY, ""), r1)]);
    Node(0, "", None, ["product"], map[
      "product" := Node(SLUG_PATH | PAT_STR, "product", None, ["*"], map["*" := star])])
  }

  lemma DefineWildcardFirst(r1: string)
    ensures Define(Root(), ["product", "*", ""], r1) == WildcardFirst(r1)
  {
    ParseWildcardTokens();
    var t := WildcardFirst(r1);
    var product := t.edges["product"];
    var star := product.edges["*"];
    assert ["product", "*", ""][1..] == ["*", ""] && ["*", ""][1..] == [""] && [""][1..] == [];
    assert Define(Fresh(Parse("")), [], r1) == star.edges[""];
    assert Define(Fresh(Parse("*")), [""], r1) == star;
    assert Define(Fresh(Parse("product")), ["*", ""], r1) == product;
  }

  lemma DefineWildcardSecond(r1: string, r2: string)
    ensures Define(WildcardFirst(r1), ["product", "*", "details"], r2) == WildcardRouter(r1, r2)
  {
    ParseWildcardTokens();
    var t, t2 := WildcardFirst(r1), WildcardRouter(r1, r2);
    var product, product2 := t.edges["product"], t2.edges["product"];
    var star, star2 := product.edges["*"], product2.edges["*"];
    assert ["product", "*", "details"][1..] == ["*", "details"];
    assert ["*", "details"][1..] == ["details"] && ["details"][1..] == [];
    assert Define(Fresh(Parse("details")), [], r2) == star2.edges["details"];
    assert Define(star, ["details"], r2) == star2 by {
      assert star.order + ["details"] == ["", "details"];
    }
    assert Define(product, ["*", "details"], r2) == product2;
  }

  lemma BuildWildcard(r1: string, r2: string)
    requires Slugify(r1) == ["product", "*", ""]
    requires Slugify(r2) == ["product", "*", "details"]
    ensures Build([r1, r2]) == WildcardRouter(r1, r2)
  {
    BuildStep([], r1, ["product", "*", ""]);
    BuildStep([r1], r2, ["product", "*", "details"]);
    assert [] + [r1] == [r1] && [r1] + [r2] == [r1, r2];
    DefineWildcardFirst(r1);
    DefineWildcardSecond(r1, r2);
  }

  /** `Object.keys` of key lists without array indices is the list itself. */
  lemma KeysPlain(ks: seq<string>)
    requires forall i :: 0 <= i < |ks| ==> |ks[i]| > 0 ==> !IsDigit(ks[i][0])
    ensures OwnKeys(ks) == ks
  {
    OwnKeysInsertionOrder(ks);
  }

  lemma KeysProduct()
    ensures OwnKeys(["product"]) == ["product"]
  {
    KeysPlain(["product"]);
  }

  lemma KeysStar()
    ensures OwnKeys(["*"]) == ["*"]
  {
    KeysPlain(["*"]);
  }

  lemma KeysStarChildren()
    ensures OwnKeys(["", "details"]) == ["", "details"]
  {
    KeysPlain(["", "details"]);
  }

  lemma KeysNone()
    ensures OwnKeys([]) == []
  {
  }

  lemma Prefix2(a: string, b: string, c: string)
    ensures [a] + ([b] + [c]) == [a, b, c]
  {
  }

  /** The first step, `product`. */
  lemma WildcardProduct(r1: string, r2: string, seg: string, last: string, rx: RegexTest)
    ensures var t := WildcardRouter(r1, r2);
            var m := Match(t.edges["product"], [seg, last], rx);
            Match(t, ["product", seg, last], rx) == if m.Some? then Some(["product"] + m.value) else None
  {
    var t := WildcardRouter(r1, r2);
    KeysProduct();
    FindEdgeIs(t, ["product"], "product", rx, 0);
    MatchDescend(t, ["product", seg, last], rx);
    assert ["product", seg, last][1..] == [seg, last];
  }

  /** The second step: any segment through `*`. */
  lemma WildcardStar(r1: string, r2: string, seg: string, last: string, rx: RegexTest)
    ensures var product := WildcardRouter(r1, r2).edges["product"];
            var m := Match(product.edges["*"], [last], rx);
            Match(product, [seg, last], rx) == if m.Some? then Some(["*"] + m.value) else None
  {
    var product := WildcardRouter(r1, r2).edges["product"];
    KeysStar();
    FindEdgeIs(product, ["*"], seg, rx, 0);
    MatchDescend(product, [seg, last], rx);
    assert [seg, last][1..] == [last];
  }

  lemma WildcardEmptyLast(r1: string, r2: string, rx: RegexTest)
    requires r1 != ""
    ensures Match(WildcardRouter(r1, r2).edges["product"].edges["*"], [""], rx) == Some([""])
  {
    var star := WildcardRouter(r1, r2).edges["product"].edges["*"];
    KeysStarChildren();
    KeysNone();
    FindEdgeIs(star, ["", "details"], "", rx, 0);
    FindTrailingIs(star.edges[""], [], 0);
    MatchLast(star, [""], rx);
  }

  lemma WildcardDetailsLast(r1: string, r2: string, rx: RegexTest)
    requires r2 != ""
    ensures Match(WildcardRouter(r1, r2).edges["product"].edges["*"], ["details"], rx) == Some(["details"])
  {
    var star := WildcardRouter(r1, r2).edges["product"].edges["*"];
    KeysStarChildren();
    KeysNone();
    FindEdgeIs(star, ["", "details"], "details", rx, 1);
    FindTrailingIs(star.edges["details"], [], 0);
    MatchLast(star, ["details"], rx);
  }

  lemma WildcardSlash(r1: string, r2: string, seg: string, rx: RegexTest)
    requires Slugify(r1) == ["product", "*", ""]
    requires Slugify(r2) == ["product", "*", "details"]
    ensures Match(Build([r1, r2]), ["product", seg, ""], rx) == Some(["product", "*", ""])
  {
    BuildWildcard(r1, r2);
    NonEmptyRoute(r1);
    WildcardProduct(r1, r2, seg, "", rx);
    WildcardStar(r1, r2, seg, "", rx);
    WildcardEmptyLast(r1, r2, rx);
    Prefix2("product", "*", "");
  }

  lemma WildcardDetails(r1: string, r2: string, seg: string, rx: RegexTest)
    requires Slugify(r1) == ["product", "*", ""]
    requires Slugify(r2) == ["product", "*", "details"]
    ensures Match(Build([r1, r2]), ["product", seg, "details"], rx) == Some(["product", "*", "details"])
  {
    BuildWildcard(r1, r2);
    NonEmptyRoute(r2);
    WildcardProduct(r1, r2, seg, "details", rx);
    WildcardStar(r1, r2, seg, "details", rx);
    WildcardDetailsLast(r1, r2, rx);
    Prefix2("product", "*", "details");
  }

  lemma WildcardHomes(r1: string, r2: string, rx: RegexTest)
    requires Slugify(r1) == ["product", "*", ""]
    requires Slugify(r2) == ["product", "*", "details"]
    ensures Match(Build([r1, r2]), ["homes"], rx) == None
  {
    BuildWildcard(r1, r2);
    KeysProduct();
    assert "homes" != "product" by { assert "homes"[0] != "product"[0]; }
    FindEdgeIs(WildcardRouter(r1, r2), ["product"], "homes", rx, 1);
  }

  lemma WildcardPaths(r1: string, r2: string)
    requires Slugify(r1) == ["product", "*", ""]
    requires Slugify(r2) == ["product", "*", "details"]
    ensures PathAt(Build([r1, r2]), ["product", "*", ""]) == Some(r1)
    ensures PathAt(Build([r1, r2]), ["product", "*", "details"]) == Some(r2)
  {
    BuildPathAt([r1, r2], ["product", "*", ""]);
    BuildPathAt([r1, r2], ["product", "*", "details"]);
    assert [r1, r2][..1] == [r1];
    assert [r1][..0] == [];
  }

  /** With the routes tokenized as `product`, `*`, `""` and as `product`,
      `*`, `details`: a request `product`, any segment, `""` and a request
      `product`, any segment, `details` match, at the nodes carrying the two
      routes; `homes` does not match. */
  lemma WildcardRules(r1: string, r2: string, seg: string, rx: RegexTest)
    requires Slugify(r1) == ["product", "*", ""]
    requires Slugify(r2) == ["product", "*", "details"]
    ensures var t := Build([r1, r2]);
            && Match(t, ["product", seg, ""], rx) == Some(["product", "*", ""])
            && Match(t, ["product", seg, "details"], rx) == Some(["product", "*", "details"])
            && Match(t, ["homes"], rx) == None
            && PathAt(t, ["product", "*", ""]) == Some(r1)
            && PathAt(t, ["product", "*", "details"]) == Some(r2)
  {
    WildcardSlash(r1, r2, seg, rx);
    WildcardDetails(r1, r2, seg, rx);
    WildcardHomes(r1, r2, rx);
    WildcardPaths(r1, r2);
  }

  // ---------------------------------------------------------------------
  // Where adding a route changes an earlier match.

  lemma ParseStar()
    ensures Parse("*") == Options(SLUG_PATH | PAT_WILDCARD, "*")
  {
    assert !IsWordSlug("*") by { assert !IsWordChar("*"[0]); }
  }

  lemma ParseWord(w: string)
    requires IsWordSlug(w)
    ensures Parse(w) == Options(SLUG_PATH | PAT_STR, w)
  {
    ParseRules(w);
  }

  /** The key `1` is an array index, so `Object.keys` lists it before `*`. */
  lemma KeysStarOne()
    ensures OwnKeys(["*", "1"]) == ["1", "*"]
  {
    assert IsArrayIndex("1") by {
      assert DigitsValue("1") == 10 * DigitsValue("") + 1 by {
        assert "1"[..0] == "";
      }
    }
    assert !IsArrayIndex("*") by { assert !IsDigit("*"[0]); }
    assert ["*", "1"][1..] == ["1"] && ["1"][1..] == [];
    assert ArrayIndices(["*", "1"]) == ["1"];
    assert OtherKeys(["*", "1"]) == ["*"];
    assert SortByIndex(["1"]) == ["1"] by {
      assert ["1"][1..] == [];
    }
  }

  function StarRouter(r1: string): Node
  {
    Node(0, "", None, ["*"], map["*" := Leaf(Options(SLUG_PATH | PAT_WILDCARD, "*"), r1)])
  }

  function StarOneRouter(r1: string, r2: string): Node
  {
    var one := Node(SLUG_PATH | PAT_STR, "1", None, ["x"], map["x" := Leaf(Options(SLUG_PATH | PAT_STR, "x"), r2)]);
    StarRouter(r1).(order := ["*", "1"], edges := StarRouter(r1).edges["1" := one])
  }

  lemma BuildStar(r1: string)
    requires Slugify(r1) == ["*"]
    ensures Build([r1]) == StarRouter(r1)
  {
    ParseStar();
    BuildStep([], r1, ["*"]);
    assert [] + [r1] == [r1];
    assert ["*"][1..] == [];
  }

  lemma BuildStarOne(r1: string, r2: string)
    requires Slugify(r1) == ["*"]
    requires Slugify(r2) == ["1", "x"]
    ensures Build([r1, r2]) == StarOneRouter(r1, r2)
  {
    BuildStar(r1);
    BuildStep([r1], r2, ["1", "x"]);
    assert [r1] + [r2] == [r1, r2];
    assert IsWordSlug("1") && IsWordSlug("x");
    ParseWord("1");
    ParseWord("x");
    assert ["1", "x"][1..] == ["x"] && ["x"][1..] == [];
    var one := StarOneRouter(r1, r2).edges["1"];
    assert Define(Fresh(Parse("1")), ["x"], r2) == one;
    assert StarRouter(r1).order + ["1"] == ["*", "1"];
  }

  lemma MatchStarOne(r1: string, rx: RegexTest)
    requires r1 != ""
    ensures Match(StarRouter(r1), ["1"], rx) == Some(["*"])
  {
    var t := StarRouter(r1);
    KeysStar();
    KeysNone();
    FindEdgeIs(t, ["*"], "1", rx, 0);
    FindTrailingIs(t.edges["*"], [], 0);
    MatchLast(t, ["1"], rx);
  }

  lemma KeysX()
    ensures OwnKeys(["x"]) == ["x"]
  {
    KeysPlain(["x"]);
  }

  lemma MatchStarOneAfter(r1: string, r2: string, rx: RegexTest)
    ensures Match(StarOneRouter(r1, r2), ["1"], rx) == None
  {
    var t := StarOneRouter(r1, r2);
    KeysStarOne();
    KeysX();
    FindEdgeIs(t, ["1", "*"], "1", rx, 0);
    FindTrailingIs(t.edges["1"], ["x"], 1);
    MatchLast(t, ["1"], rx);
  }

  /** With one route, tokenized as `*`, the request `1` matches the
      wildcard. Adding a route tokenized as `1`, `x` creates the key `1`, an array index, which `Object.keys` enumerates
      before `*`: the request `1` then commits to the new edge, whose node
      carries no route, and no longer matches. This is why the lemma that
      adding routes keeps matches asks for tokens that are not array indices. */
  lemma ArrayIndexShadows(r1: string, r2: string, rx: RegexTest)
    requires Slugify(r1) == ["*"]
    requires Slugify(r2) == ["1", "x"]
    ensures Match(Build([r1]), ["1"], rx) == Some(["*"])
    ensures Match(Build([r1, r2]), ["1"], rx) == None
  {
    BuildStar(r1);
    BuildStarOne(r1, r2);
    NonEmptyRoute(r1);
    MatchStarOne(r1, rx);
    MatchStarOneAfter(r1, r2, rx);
  }

  function BacktrackRouter(r1: string, r2: string): Node
  {
    var star := Node(SLUG_PATH | PAT_WILDCARD, "*", None, ["c"], map["c" := Leaf(Options(SLUG_PATH | PAT_STR, "c"), r1)]);
    var a := Node(SLUG_PATH | PAT_STR, "a", None, ["b"], map["b" := Leaf(Options(SLUG_PATH | PAT_STR, "b"), r2)]);
    Node(0, "", None, ["*", "a"], map["*" := star, "a" := a])
  }

  function BacktrackFirst(r1: string): Node
  {
    var t := BacktrackRouter(r1, "");
    t.(order := ["*"], edges := map["*" := t.edges["*"]])
  }

  lemma DefineBacktrackFirst(r1: string)
    ensures Define(Root(), ["*", "c"], r1) == BacktrackFirst(r1)
  {
    ParseStar();
    assert IsWordSlug("c");
    ParseWord("c");
    assert ["*", "c"][1..] == ["c"] && ["c"][1..] == [];
    var star := BacktrackFirst(r1).edges["*"];
    assert Define(Fresh(Parse("*")), ["c"], r1) == star;
  }

  lemma DefineBacktrackSecond(r1: string, r2: string)
    ensures Define(BacktrackFirst(r1), ["a", "b"], r2) == BacktrackRouter(r1, r2)
  {
    assert IsWordSlug("a") && IsWordSlug("b");
    ParseWord("a");
    ParseWord("b");
    assert ["a", "b"][1..] == ["b"] && ["b"][1..] == [];
    var a := BacktrackRouter(r1, r2).edges["a"];
    assert Define(Fresh(Parse("a")), ["b"], r2) == a;
    assert BacktrackFirst(r1).order + ["a"] == ["*", "a"];
  }

  lemma BuildBacktrack(r1: string, r2: string)
    requires Slugify(r1) == ["*", "c"]
    requires Slugify(r2) == ["a", "b"]
    ensures Build([r1, r2]) == BacktrackRouter(r1, r2)
  {
    BuildStep([], r1, ["*", "c"]);
    BuildStep([r1], r2, ["a", "b"]);
    assert [] + [r1] == [r1] && [r1] + [r2] == [r1, r2];
    DefineBacktrackFirst(r1);
    DefineBacktrackSecond(r1, r2);
  }

  lemma KeysStarA()
    ensures OwnKeys(["*", "a"]) == ["*", "a"]
  {
    KeysPlain(["*", "a"]);
  }

  lemma KeysC()
    ensures OwnKeys(["c"]) == ["c"]
  {
    KeysPlain(["c"]);
  }

  lemma MatchBacktrack(r1: string, r2: string, rx: RegexTest)
    ensures Match(BacktrackRouter(r1, r2), ["a", "b"], rx) == None
  {
    var t := BacktrackRouter(r1, r2);
    var star := t.edges["*"];
    KeysStarA();
    KeysC();
    FindEdgeIs(t, ["*", "a"], "a", rx, 0);
    MatchDescend(t, ["a", "b"], rx);
    assert ["a", "b"][1..] == ["b"];
    assert "b" != "c" by { assert "b"[0] != "c"[0]; }
    FindEdgeIs(star, ["c"], "b", rx, 1);
  }

  lemma MatchedBacktrack(r1: string, r2: string, rx: RegexTest)
    requires r2 != ""
    ensures Matched(BacktrackRouter(r1, r2), ["a", "b"], ["a", "b"], rx)
  {
    var t := BacktrackRouter(r1, r2);
    assert ["a", "b"][1..] == ["b"];
    assert Matched(t.edges["a"], ["b"], ["b"], rx);
  }

  /** With routes tokenized as `*`, `c` and as `a`, `b` (in that order), the
      request `a`, `b` has an accepting descent to the node of the second
      route, but `match` commits to the wildcard edge, enumerated first, and
      does not come back: it does not match. */
  lemma NoBacktracking(r1: string, r2: string, rx: RegexTest)
    requires Slugify(r1) == ["*", "c"]
    requires Slugify(r2) == ["a", "b"]
    ensures Matched(Build([r1, r2]), ["a", "b"], ["a", "b"], rx)
    ensures Match(Build([r1, r2]), ["a", "b"], rx) == None
  {
    BuildBacktrack(r1, r2);
    NonEmptyRoute(r2);
    MatchedBacktrack(r1, r2, rx);
    MatchBacktrack(r1, r2, rx);
  }

  // ---------------------------------------------------------------------
  // Query strings: the `qsMatch` assertions of the query-string tests, and
  // the routers of those tests, which hold one route each.

  /** Neither `=` nor `&`: text that can be a key or a value of one pair. */
  predicate Plain(s: string)
  {
    '=' !in s && '&' !in s
  }

  lemma PairParts(k: string, v: string)
    requires Plain(k) && Plain(v)
    ensures KeyOf(k + "=" + v) == k && ValueOf(k + "=" + v) == Some(v)
    ensures '&' !in k + "=" + v
  {
    assert k + "=" + v == k + ['='] + v;
    SplitAfterPiece(k, '=', v);
    SplitWhole(v, '=');
  }

  lemma PairsCons(a: string, rest: string)
    requires '&' !in a
    ensures Pairs("?" + a + "&" + rest) == [a] + Pairs("?" + rest)
  {
    var s := "?" + a + "&" + rest;
    assert s == ['?'] + (a + ['&'] + rest);
    assert StripLeading(s, '?') == s[1..] == a + ['&'] + rest;
    assert StripLeading("?" + rest, '?') == ("?" + rest)[1..] == rest;
    SplitAfterPiece(a, '&', rest);
  }

  lemma PairsLast(a: string)
    requires '&' !in a
    ensures Pairs("?" + a) == [a]
  {
    assert StripLeading("?" + a, '?') == ("?" + a)[1..] == a;
    SplitWhole(a, '&');
  }

  /** The pair map of `?k=v`. */
  lemma PairMapOne(k: string, v: string)
    requires Plain(k) && Plain(v)
    ensures PairMap("?" + k + "=" + v) == map[k := Some(v)]
  {
    var p := k + "=" + v;
    PairParts(k, v);
    assert "?" + k + "=" + v == "?" + p;
    PairsLast(p);
    assert [p][1..] == [];
    assert Accumulate(map[], [p]) == Accumulate(map[k := Some(v)], []);
  }

  /** The pair map of `?k1=v1&k2=v2`. */
  lemma PairMapTwo(k1: string, v1: string, k2: string, v2: string)
    requires Plain(k1) && Plain(v1) && Plain(k2) && Plain(v2)
    ensures PairMap("?" + k1 + "=" + v1 + "&" + k2 + "=" + v2) == map[k1 := Some(v1), k2 := Some(v2)]
  {
    var p1, p2 := k1 + "=" + v1, k2 + "=" + v2;
    PairParts(k1, v1);
    PairParts(k2, v2);
    assert "?" + k1 + "=" + v1 + "&" + k2 + "=" + v2 == "?" + p1 + "&" + p2;
    PairsCons(p1, p2);
    PairsLast(p2);
    assert [p1, p2][1..] == [p2] && [p2][1..] == [];
    var m1 := map[k1 := Some(v1)];
    assert Accumulate(map[], [p1, p2]) == Accumulate(m1, [p2]);
    assert Accumulate(m1, [p2]) == Accumulate(m1[k2 := Some(v2)], []);
  }

  /** The pairs of `?p1&p2&p3`. */
  lemma PairsThree(p1: string, p2: string, p3: string)
    requires '&' !in p1 && '&' !in p2 && '&' !in p3
    ensures Pairs("?" + p1 + "&" + p2 + "&" + p3) == [p1, p2, p3]
  {
    assert "?" + p1 + "&" + p2 + "&" + p3 == "?" + p1 + "&" + (p2 + "&" + p3);
    PairsCons(p1, p2 + "&" + p3);
    assert "?" + (p2 + "&" + p3) == "?" + p2 + "&" + p3;
    PairsCons(p2, p3);
    PairsLast(p3);
    assert [p1] + ([p2] + [p3]) == [p1, p2, p3];
  }

  /** The pair map of `?k1=v1&k2=v2&k3=v3`. */
  lemma PairMapThree(k1: string, v1: string, k2: string, v2: string, k3: string, v3: string)
    requires Plain(k1) && Plain(v1) && Plain(k2) && Plain(v2) && Plain(k3) && Plain(v3)
    ensures PairMap("?" + k1 + "=" + v1 + "&" + k2 + "=" + v2 + "&" + k3 + "=" + v3)
            == map[k1 := Some(v1), k2 := Some(v2), k3 := Some(v3)]
  {
    var p1, p2, p3 := k1 + "=" + v1, k2 + "=" + v2, k3 + "=" + v3;
    PairParts(k1, v1);
    PairParts(k2, v2);
    PairParts(k3, v3);
    assert "?" + k1 + "=" + v1 + "&" + k2 + "=" + v2 + "&" + k3 + "=" + v3 == "?" + p1 + "&" + p2 + "&" + p3;
    PairsThree(p1, p2, p3);
    assert [p1, p2, p3][1..] == [p2, p3] && [p2, p3][1..] == [p3] && [p3][1..] == [];
    var m1 := map[k1 := Some(v1)];
    var m2 := m1[k2 := Some(v2)];
    assert Accumulate(map[], [p1, p2, p3]) == Accumulate(m1, [p2, p3]);
    assert Accumulate(m1, [p2, p3]) == Accumulate(m2, [p3]);
    assert Accumulate(m2, [p3]) == Accumulate(m2[k3 := Some(v3)], []);
  }

  /** Three pairs with distinct keys match the same pairs with the last two
      swapped. */
  lemma QsMatchSwapped(k1: string, v1: string, k2: string, v2: string, k3: string, v3: string)
    requires Plain(k1) && Plain(v1) && Plain(k2) && Plain(v2) && Plain(k3) && Plain(v3)
    requires v1 != "" && v2 != "" && v3 != "" && k1 != k2 && k1 != k3 && k2 != k3
    ensures QsMatch("?" + k1 + "=" + v1 + "&" + k2 + "=" + v2 + "&" + k3 + "=" + v3,
                    "?" + k1 + "=" + v1 + "&" + k3 + "=" + v3 + "&" + k2 + "=" + v2)
  {
    PairMapThree(k1, v1, k2, v2, k3, v3);
    PairMapThree(k1, v1, k3, v3, k2, v2);
    var candidate := map[k1 := Some(v1), k2 := Some(v2), k3 := Some(v3)];
    var wanted := map[k1 := Some(v1), k3 := Some(v3), k2 := Some(v2)];
    forall key | key in wanted ensures KeyAccepted(candidate, wanted[key], key) {
      assert key == k1 || key == k2 || key == k3;
    }
  }

  /** A wildcard first value accepts any non-empty value there; the other
      two pairs, in either order, must agree. */
  lemma QsMatchWildcardFirst(k1: string, v1: string, k2: string, v2: string, k3: string, v3: string, w: string)
    requires Plain(k1) && Plain(v1) && Plain(k2) && Plain(v2) && Plain(k3) && Plain(v3) && Plain(w)
    requires v1 != "" && v2 != "" && w != "" && v3 != "*" && k1 != k2 && k1 != k3 && k2 != k3
    ensures QsMatch("?" + k1 + "=" + v1 + "&" + k2 + "=" + v2 + "&" + k3 + "=" + w,
                    "?" + k1 + "=" + "*" + "&" + k3 + "=" + v3 + "&" + k2 + "=" + v2)
            <==> w == v3
  {
    PairMapThree(k1, v1, k2, v2, k3, w);
    PairMapThree(k1, "*", k3, v3, k2, v2);
    var candidate := map[k1 := Some(v1), k2 := Some(v2), k3 := Some(w)];
    var wanted := map[k1 := Some("*"), k3 := Some(v3), k2 := Some(v2)];
    assert wanted[k3] == Some(v3) && candidate[k3] == Some(w);
    assert KeyAccepted(candidate, wanted[k3], k3) <==> w == v3;
    if w == v3 {
      forall key | key in wanted ensures KeyAccepted(candidate, wanted[key], key) {
        assert key == k1 || key == k2 || key == k3;
      }
    }
  }

  /** Against `?k1=*&k2=v2`: a non-empty `k1` and `k2=w` match exactly when
      `w` is `v2`, and a query with only `k2` never does. */
  lemma QsMatchWildcardTwo(k1: string, v1: string, k2: string, v2: string, w: string)
    requires Plain(k1) && Plain(v1) && Plain(k2) && Plain(v2) && Plain(w)
    requires v1 != "" && w != "" && v2 != "*" && k1 != k2
    ensures QsMatch("?" + k1 + "=" + v1 + "&" + k2 + "=" + w, "?" + k1 + "=" + "*" + "&" + k2 + "=" + v2) <==> w == v2
    ensures !QsMatch("?" + k2 + "=" + w, "?" + k1 + "=" + "*" + "&" + k2 + "=" + v2)
  {
    PairMapTwo(k1, v1, k2, w);
    PairMapTwo(k1, "*", k2, v2);
    PairMapOne(k2, w);
    var candidate := map[k1 := Some(v1), k2 := Some(w)];
    var wanted := map[k1 := Some("*"), k2 := Some(v2)];
    assert wanted[k1] == Some("*") && wanted[k2] == Some(v2) && candidate[k2] == Some(w);
    assert !KeyAccepted(map[k2 := Some(w)], wanted[k1], k1);
    assert KeyAccepted(candidate, wanted[k2], k2) <==> w == v2;
    if w == v2 {
      forall key | key in wanted ensures KeyAccepted(candidate, wanted[key], key) {
        assert key == k1 || key == k2;
      }
    }
  }

  lemma SpellSizeColor()
    ensures "?item=3&size=5&color=brown" == "?" + "item" + "=" + "3" + "&" + "size" + "=" + "5" + "&" + "color" + "=" + "brown"
  {
  }

  lemma SpellColorSize()
    ensures "?item=3&color=brown&size=5" == "?" + "item" + "=" + "3" + "&" + "color" + "=" + "brown" + "&" + "size" + "=" + "5"
  {
  }

  /** `?item=3&color=brown&size=5` matches `?item=3&size=5&color=brown`:
      the same pairs in another order. */
  lemma QueryStringPermuted()
    ensures QsMatch("?item=3&color=brown&size=5", "?item=3&size=5&color=brown")
  {
    SpellSizeColor();
    SpellColorSize();
    QsMatchSwapped("item", "3", "color", "brown", "size", "5");
  }

  lemma SpellWildcardPattern()
    ensures "?item=*&size=5&color=brown" == "?" + "item" + "=" + "*" + "&" + "size" + "=" + "5" + "&" + "color" + "=" + "brown"
  {
  }

  /** The candidates of the wildcard test, `?item=v&color=brown&size=w`. */
  lemma SpellWildcardCandidate(v: string, w: string)
    ensures "?item=" + v + "&color=brown&size=" + w
            == "?" + "item" + "=" + v + "&" + "color" + "=" + "brown" + "&" + "size" + "=" + w
  {
    assert "?item=" == "?" + "item" + "=";
    assert "&color=brown&size=" == "&" + "color" + "=" + "brown" + "&" + "size" + "=";
  }

  /** Against `?item=*&size=5&color=brown`, a query with a non-empty `item`,
      `color=brown` and `size=w` matches exactly when `w` is `5`. */
  lemma QueryWildcardItem(v: string, w: string)
    requires Plain(v) && v != "" && Plain(w) && w != ""
    ensures QsMatch("?item=" + v + "&color=brown&size=" + w, "?item=*&size=5&color=brown") <==> w == "5"
  {
    SpellWildcardPattern();
    SpellWildcardCandidate(v, w);
    QsMatchWildcardFirst("item", v, "color", "brown", "size", "5", w);
  }

  lemma SpellItem5()
    ensures "?item=" + "5" + "&color=brown&size=" + "5" == "?item=5&color=brown&size=5"
  {
  }

  lemma SpellItem6()
    ensures "?item=" + "6" + "&color=brown&size=" + "5" == "?item=6&color=brown&size=5"
  {
  }

  lemma SpellItem7()
    ensures "?item=" + "7" + "&color=brown&size=" + "5" == "?item=7&color=brown&size=5"
  {
  }

  lemma SpellSize7()
    ensures "?item=" + "7" + "&color=brown&size=" + "7" == "?item=7&color=brown&size=7"
  {
  }

  /** The `qsMatch` assertions of the wildcard query-string test. */
  lemma QueryWildcard()
    ensures QsMatch("?item=5&color=brown&size=5", "?item=*&size=5&color=brown")
    ensures QsMatch("?item=6&color=brown&size=5", "?item=*&size=5&color=brown")
    ensures QsMatch("?item=7&color=brown&size=5", "?item=*&size=5&color=brown")
    ensures !QsMatch("?item=7&color=brown&size=7", "?item=*&size=5&color=brown")
  {
    SpellItem5();
    QueryWildcardItem("5", "5");
    SpellItem6();
    QueryWildcardItem("6", "5");
    SpellItem7();
    QueryWildcardItem("7", "5");
    SpellSize7();
    QueryWildcardItem("7", "7");
  }

  lemma SpellMixedPattern()
    ensures "?item=*&color=red" == "?" + "item" + "=" + "*" + "&" + "color" + "=" + "red"
  {
  }

  /** `?item=7&color=red` matches `?item=*&color=red`. */
  lemma QueryMixedMatch()
    ensures QsMatch("?item=7&color=red", "?item=*&color=red")
  {
    SpellMixedPattern();
    assert "?item=7&color=red" == "?" + "item" + "=" + "7" + "&" + "color" + "=" + "red";
    QsMatchWildcardTwo("item", "7", "color", "red", "red");
  }

  /** `?color=red` does not match `?item=*&color=red`: `item` is missing. */
  lemma QueryMixedMissing()
    ensures !QsMatch("?color=red", "?item=*&color=red")
  {
    SpellMixedPattern();
    assert "?color=red" == "?" + "color" + "=" + "red";
    QsMatchWildcardTwo("item", "7", "color", "red", "red");
  }

  /** `?item=8&color=blue` does not match `?item=*&color=red`. */
  lemma QueryMixedColor()
    ensures !QsMatch("?item=8&color=blue", "?item=*&color=red")
  {
    SpellMixedPattern();
    assert "?item=8&color=blue" == "?" + "item" + "=" + "8" + "&" + "color" + "=" + "blue";
    QsMatchWildcardTwo("item", "8", "color", "red", "blue");
  }

  /** The query part of the mixed-rules route, `?item=*&color=red`:
      `?item=7&color=red` matches; without `item`, or with another color,
      a query does not. */
  lemma QueryMixed()
    ensures QsMatch("?item=7&color=red", "?item=*&color=red")
    ensures !QsMatch("?color=red", "?item=*&color=red")
    ensures !QsMatch("?item=8&color=blue", "?item=*&color=red")
  {
    QueryMixedMatch();
    QueryMixedMissing();
    QueryMixedColor();
  }

  /** A route `/product/?q`, for a query string `q` without `?`. */
  lemma TokensProductQuery(qs: string)
    requires qs != "" && '?' !in qs
    ensures Slugify("/product/?" + qs) == ["product", "", "?" + qs]
  {
    var segs := ["product", ""];
    assert Join(segs, '/') == "product/";
    SlugifyPathQuery(segs, qs);
    assert "/" + "product/" + "?" + qs == "/product/?" + qs;
  }

  lemma TokensQueryString()
    ensures Slugify("/product/?item=3&size=5&color=brown") == ["product", "", "?item=3&size=5&color=brown"]
  {
    TokensProductQuery("item=3&size=5&color=brown");
    SpellQueryStringRoute();
  }

  lemma SpellQueryStringRoute()
    ensures "/product/?" + "item=3&size=5&color=brown" == "/product/?item=3&size=5&color=brown"
    ensures "?" + "item=3&size=5&color=brown" == "?item=3&size=5&color=brown"
  {
  }

  lemma TokensQueryWildcard()
    ensures Slugify("/product/?item=*&size=5&color=brown") == ["product", "", "?item=*&size=5&color=brown"]
  {
    TokensProductQuery("item=*&size=5&color=brown");
    SpellQueryWildcardRoute();
  }

  lemma SpellQueryWildcardRoute()
    ensures "/product/?" + "item=*&size=5&color=brown" == "/product/?item=*&size=5&color=brown"
    ensures "?" + "item=*&size=5&color=brown" == "?item=*&size=5&color=brown"
  {
  }

  lemma TokensRequestItem3()
    ensures Slugify("/product/?item=3&color=brown&size=5") == ["product", "", "?item=3&color=brown&size=5"]
  {
    TokensProductQuery("item=3&color=brown&size=5");
    SpellRequestItem3();
  }

  lemma SpellRequestItem3()
    ensures "/product/?" + "item=3&color=brown&size=5" == "/product/?item=3&color=brown&size=5"
    ensures "?" + "item=3&color=brown&size=5" == "?item=3&color=brown&size=5"
  {
  }

  lemma TokensRequestItem5()
    ensures Slugify("/product/?item=5&color=brown&size=5") == ["product", "", "?item=5&color=brown&size=5"]
  {
    TokensProductQuery("item=5&color=brown&size=5");
    SpellRequestItem5();
  }

  lemma SpellRequestItem5()
    ensures "/product/?" + "item=5&color=brown&size=5" == "/product/?item=5&color=brown&size=5"
    ensures "?" + "item=5&color=brown&size=5" == "?item=5&color=brown&size=5"
  {
  }

  lemma TokensRequestItem6()
    ensures Slugify("/product/?item=6&color=brown&size=5") == ["product", "", "?item=6&color=brown&size=5"]
  {
    TokensProductQuery("item=6&color=brown&size=5");
    SpellRequestItem6();
  }

  lemma SpellRequestItem6()
    ensures "/product/?" + "item=6&color=brown&size=5" == "/product/?item=6&color=brown&size=5"
    ensures "?" + "item=6&color=brown&size=5" == "?item=6&color=brown&size=5"
  {
  }

  lemma TokensRequestItem7()
    ensures Slugify("/product/?item=7&color=brown&size=5") == ["product", "", "?item=7&color=brown&size=5"]
  {
    TokensProductQuery("item=7&color=brown&size=5");
    SpellRequestItem7();
  }

  lemma SpellRequestItem7()
    ensures "/product/?" + "item=7&color=brown&size=5" == "/product/?item=7&color=brown&size=5"
    ensures "?" + "item=7&color=brown&size=5" == "?item=7&color=brown&size=5"
  {
  }

  lemma TokensRequestSize7()
    ensures Slugify("/product/?item=7&color=brown&size=7") == ["product", "", "?item=7&color=brown&size=7"]
  {
    TokensProductQuery("item=7&color=brown&size=7");
    SpellRequestSize7();
  }

  lemma SpellRequestSize7()
    ensures "/product/?" + "item=7&color=brown&size=7" == "/product/?item=7&color=brown&size=7"
    ensures "?" + "item=7&color=brown&size=7" == "?item=7&color=brown&size=7"
  {
  }

  /** The request `product`, `""`, `q` passes the edges of the route
      `product`, `""`, `p` exactly when `q` matches the query token `p`. */
  lemma ProductQueryAccepts(p: string, q: string, rx: RegexTest)
    requires StartsWith(p, '?') && p != "?*"
    ensures AcceptsPrefix(["product", "", p], ["product", "", q], rx) <==> QsMatch(q, p)
  {
    var t, s := ["product", "", p], ["product", "", q];
    assert IsWordSlug("product");
    ParseWord("product");
    assert MatchSlug(s[0], Parse(t[0]), rx) && MatchSlug(s[1], Parse(t[1]), rx);
    assert MatchSlug(s[2], Parse(t[2]), rx) <==> QsMatch(q, p);
    if QsMatch(q, p) {
      forall i | 0 <= i < 3 ensures MatchSlug(s[i], Parse(t[i]), rx) {
        if i == 2 {
        }
      }
    }
  }

  /** With one route whose query token is `p`, the request `product`, `""`,
      `q` matches the route's node exactly when `q` matches `p`. */
  lemma ProductQueryRule(r: string, p: string, q: string, rx: RegexTest)
    requires Slugify(r) == ["product", "", p] && StartsWith(p, '?') && p != "?*"
    ensures Match(Build([r]), ["product", "", q], rx) == if QsMatch(q, p) then Some(["product", "", p]) else None
  {
    NonEmptyRoute(r);
    SingleRouterMatch(r, ["product", "", q], rx);
    ProductQueryAccepts(p, q, rx);
  }

  /** With `/product/?item=3&size=5&color=brown`, the request
      `/product/?item=3&color=brown&size=5` matches, at the route's node. */
  lemma QueryStringRule(r: string, rx: RegexTest)
    requires Slugify(r) == ["product", "", "?item=3&size=5&color=brown"]
    ensures Match(Build([r]), ["product", "", "?item=3&color=brown&size=5"], rx) == Some(Slugify(r))
    ensures PathAt(Build([r]), Slugify(r)) == Some(r)
  {
    QueryStringPermuted();
    ProductQueryRule(r, "?item=3&size=5&color=brown", "?item=3&color=brown&size=5", rx);
    BuildPathAt([r], Slugify(r));
  }

  /** With `/product/?item=*&size=5&color=brown`, the requests with
      `item=5`, `6` and `7` match at the route's node, and the one with
      `size=7` does not. */
  lemma QueryWildcardRule(r: string, rx: RegexTest)
    requires Slugify(r) == ["product", "", "?item=*&size=5&color=brown"]
    ensures Match(Build([r]), ["product", "", "?item=5&color=brown&size=5"], rx) == Some(Slugify(r))
    ensures Match(Build([r]), ["product", "", "?item=6&color=brown&size=5"], rx) == Some(Slugify(r))
    ensures Match(Build([r]), ["product", "", "?item=7&color=brown&size=5"], rx) == Some(Slugify(r))
    ensures Match(Build([r]), ["product", "", "?item=7&color=brown&size=7"], rx) == None
  {
    var p := "?item=*&size=5&color=brown";
    QueryWildcard();
    ProductQueryRule(r, p, "?item=5&color=brown&size=5", rx);
    ProductQueryRule(r, p, "?item=6&color=brown&size=5", rx);
    ProductQueryRule(r, p, "?item=7&color=brown&size=5", rx);
    ProductQueryRule(r, p, "?item=7&color=brown&size=7", rx);
  }

  // ---------------------------------------------------------------------
  // Mixed rules: `/home`, `/product/*/?item=*&color=red` and
  // `/account/(^[0-9]{3,4}$)/coupons?status=active` in one router.

  /** The requests `/k/seg/c?qs` of the mixed-rules test: three segments
      and a query string. */
  lemma TokensSegmentsQuery(k: string, seg: string, c: string, qs: string)
    requires '/' !in k && '?' !in k && '/' !in seg && '?' !in seg && '/' !in c && '?' !in c
    requires qs != "" && '?' !in qs
    ensures Slugify("/" + k + "/" + seg + "/" + c + "?" + qs) == [k, seg, c, "?" + qs]
  {
    var segs := [k, seg, c];
    JoinStep(seg, [c]);
    JoinStep(k, [seg, c]);
    SlugifyPathQuery(segs, qs);
    assert "/" + Join(segs, '/') + "?" + qs == "/" + k + "/" + seg + "/" + c + "?" + qs;
  }

  lemma TokensMixedProduct()
    ensures Slugify("/product/*/?item=*&color=red") == ["product", "*", "", "?item=*&color=red"]
  {
    TokensSegmentsQuery("product", "*", "", "item=*&color=red");
    SpellMixedProductRoute();
  }

  lemma SpellMixedProductRoute()
    ensures "/" + "product" + "/" + "*" + "/" + "" + "?" + "item=*&color=red" == "/product/*/?item=*&color=red"
    ensures "?" + "item=*&color=red" == "?item=*&color=red"
  {
    assert "/" + "product" + "/" + "*" + "/" + "" == "/product/*/";
  }

  lemma TokensMixedAccount()
    ensures Slugify("/account/(^[0-9]{3,4}$)/coupons?status=active")
              == ["account", "(^[0-9]{3,4}$)", "coupons", "?status=active"]
  {
    TokensSegmentsQuery("account", "(^[0-9]{3,4}$)", "coupons", "status=active");
    SpellMixedAccountRoute();
  }

  lemma TokensMixedShirts()
    ensures Slugify("/product/shirts/?item=7&color=red") == ["product", "shirts", "", "?item=7&color=red"]
  {
    TokensSegmentsQuery("product", "shirts", "", "item=7&color=red");
    SpellMixedShirts();
  }

  lemma SpellMixedShirts()
    ensures "/" + "product" + "/" + "shirts" + "/" + "" + "?" + "item=7&color=red" == "/product/shirts/?item=7&color=red"
    ensures "?" + "item=7&color=red" == "?item=7&color=red"
  {
    assert "/" + "product" + "/" + "shirts" + "/" + "" == "/product/shirts/";
  }

  lemma TokensMixedShirtsColor()
    ensures Slugify("/product/shirts/?color=red") == ["product", "shirts", "", "?color=red"]
  {
    TokensSegmentsQuery("product", "shirts", "", "color=red");
    SpellMixedShirtsColor();
  }

  lemma SpellMixedShirtsColor()
    ensures "/" + "product" + "/" + "shirts" + "/" + "" + "?" + "color=red" == "/product/shirts/?color=red"
    ensures "?" + "color=red" == "?color=red"
  {
    assert "/" + "product" + "/" + "shirts" + "/" + "" == "/product/shirts/";
  }

  lemma TokensMixedShirtsBlue()
    ensures Slugify("/product/shirts/?item=8&color=blue") == ["product", "shirts", "", "?item=8&color=blue"]
  {
    TokensSegmentsQuery("product", "shirts", "", "item=8&color=blue");
    SpellMixedShirtsBlue();
  }

  lemma SpellMixedShirtsBlue()
    ensures "/" + "product" + "/" + "shirts" + "/" + "" + "?" + "item=8&color=blue" == "/product/shirts/?item=8&color=blue"
    ensures "?" + "item=8&color=blue" == "?item=8&color=blue"
  {
    assert "/" + "product" + "/" + "shirts" + "/" + "" == "/product/shirts/";
  }

  lemma TokensMixedCoupons()
    ensures Slugify("/account/777/coupons?status=active") == ["account", "777", "coupons", "?status=active"]
  {
    TokensSegmentsQuery("account", "777", "coupons", "status=active");
    SpellMixedCoupons();
  }

  lemma SpellMixedCoupons()
    ensures "/" + "account" + "/" + "777" + "/" + "coupons" + "?" + "status=active" == "/account/777/coupons?status=active"
    ensures "?" + "status=active" == "?status=active"
  {
    assert "/" + "account" + "/" + "777" + "/" + "coupons" == "/account/777/coupons";
  }

  lemma TokensMixedInactive()
    ensures Slugify("/account/777/coupons?status=inactive") == ["account", "777", "coupons", "?status=inactive"]
  {
    TokensSegmentsQuery("account", "777", "coupons", "status=inactive");
    SpellMixedInactive();
  }

  lemma SpellMixedInactive()
    ensures "/" + "account" + "/" + "777" + "/" + "coupons" + "?" + "status=inactive" == "/account/777/coupons?status=inactive"
    ensures "?" + "status=inactive" == "?status=inactive"
  {
    assert "/" + "account" + "/" + "777" + "/" + "coupons" == "/account/777/coupons";
  }

  lemma TokensMixedLong()
    ensures Slugify("/account/777777/coupons?status=active") == ["account", "777777", "coupons", "?status=active"]
  {
    TokensSegmentsQuery("account", "777777", "coupons", "status=active");
    SpellMixedLong();
  }

  lemma SpellMixedLong()
    ensures "/" + "account" + "/" + "777777" + "/" + "coupons" + "?" + "status=active" == "/account/777777/coupons?status=active"
    ensures "?" + "status=active" == "?status=active"
  {
    assert "/" + "account" + "/" + "777777" + "/" + "coupons" == "/account/777777/coupons";
  }

  lemma SpellMixedAccountRoute()
    ensures "/" + "account" + "/" + "(^[0-9]{3,4}$)" + "/" + "coupons" + "?" + "status=active"
              == "/account/(^[0-9]{3,4}$)/coupons?status=active"
    ensures "?" + "status=active" == "?status=active"
  {
    assert "/" + "account" + "/" + "(^[0-9]{3,4}$)" + "/" + "coupons" == "/account/(^[0-9]{3,4}$)/coupons";
  }

  /** The first tokens of the mixed-rules routes: three different words,
      none an array index. */
  predicate MixedHeads(home: string, product: string, account: string)
  {
    && Slugify(home) == ["home"] && Slugify(product)[0] == "product" && Slugify(account)[0] == "account"
    && |Slugify(product)| >= 2 && |Slugify(account)| >= 2
  }

  lemma MixedHeadsDiffer(home: string, product: string, account: string)
    requires MixedHeads(home, product, account)
    ensures home != "" && product != "" && account != ""
    ensures Slugify(home)[0] != Slugify(product)[0] && Slugify(home)[0] != Slugify(account)[0]
    ensures Slugify(product)[0] != Slugify(account)[0]
    ensures !IsArrayIndex(Slugify(home)[0]) && !IsArrayIndex(Slugify(product)[0])
    ensures !IsArrayIndex(Slugify(account)[0])
  {
    NonEmptyRoute(home);
    NonEmptyRoute(product);
    NonEmptyRoute(account);
    assert !IsDigit("home"[0]) && !IsDigit("product"[0]) && !IsDigit("account"[0]);
  }

  /** The first edges of the mixed-rules routes accept their own word only. */
  lemma MixedFirst(slug: string, rx: RegexTest)
    ensures MatchSlug(slug, Parse("home"), rx) <==> slug == "home"
    ensures MatchSlug(slug, Parse("product"), rx) <==> slug == "product"
    ensures MatchSlug(slug, Parse("account"), rx) <==> slug == "account"
  {
    assert IsWordSlug("home") && IsWordSlug("product") && IsWordSlug("account");
    EdgeAccepts("home", slug, rx);
    EdgeAccepts("product", slug, rx);
    EdgeAccepts("account", slug, rx);
  }

  /** The route with tokens `k`, `*`, `""` and a query token `p`: a request
      `k`, any segment, `""`, `q` is accepted exactly when `q` matches `p`. */
  lemma WildcardQueryAnswer(k: string, p: string, seg: string, q: string, rx: RegexTest)
    requires IsWordSlug(k) && StartsWith(p, '?') && p != "?*"
    ensures ChainAnswer([k, "*", "", p], [k, seg, "", q], rx) == if QsMatch(q, p) then Some([k, "*", "", p]) else None
  {
    var t, s := [k, "*", "", p], [k, seg, "", q];
    EdgeAccepts(k, k, rx);
    EdgeAccepts("*", seg, rx);
    EdgeAccepts("", "", rx);
    EdgeAccepts(p, q, rx);
    assert AcceptsPrefix(t, s, rx) <==> MatchSlug(s[3], Parse(t[3]), rx);
  }

  /** The route with tokens `k`, a parenthesised `x`, `c` and a query token
      `p`: a request `k`, `seg`, `c`, `q` is accepted exactly when the host's regular expression
      inside `x` accepts `seg` and `q` matches `p`. */
  lemma RegexQueryAnswer(k: string, x: string, c: string, p: string, seg: string, q: string, rx: RegexTest)
    requires IsWordSlug(k) && IsParenthesised(x) && IsWordSlug(c) && StartsWith(p, '?') && p != "?*"
    ensures ChainAnswer([k, x, c, p], [k, seg, c, q], rx) ==
              if rx(x[1..|x| - 1], seg) && QsMatch(q, p) then Some([k, x, c, p]) else None
  {
    var t, s := [k, x, c, p], [k, seg, c, q];
    EdgeAccepts(k, k, rx);
    EdgeAccepts(x, seg, rx);
    EdgeAccepts(c, c, rx);
    EdgeAccepts(p, q, rx);
    assert AcceptsPrefix(t, s, rx) <==> MatchSlug(s[1], Parse(t[1]), rx) && MatchSlug(s[3], Parse(t[3]), rx);
  }

  /** Mixed rules, `/home`: it matches, at the route's node. */
  lemma MixedHome(home: string, product: string, account: string, rx: RegexTest)
    requires MixedHeads(home, product, account)
    ensures Match(Build([home, product, account]), ["home"], rx) == Some(["home"])
  {
    MixedHeadsDiffer(home, product, account);
    MixedFirst("home", rx);
    FirstRouteAnswer(home, product, account, ["home"], rx);
    assert AcceptsPrefix(["home"], ["home"], rx);
  }

  /** Mixed rules, `/product/<seg>/?<q>`, with the route's query token `p`:
      it matches, at the route's node, exactly when `q` matches `p`,
      whatever the segment. */
  lemma MixedProduct(home: string, product: string, account: string, p: string, seg: string, q: string, rx: RegexTest)
    requires MixedHeads(home, product, account)
    requires Slugify(product) == ["product", "*", "", p] && StartsWith(p, '?') && p != "?*"
    ensures Match(Build([home, product, account]), ["product", seg, "", q], rx) ==
              if QsMatch(q, p) then Some(Slugify(product)) else None
  {
    MixedHeadsDiffer(home, product, account);
    MixedFirst("product", rx);
    SecondRouteAnswer(home, product, account, ["product", seg, "", q], rx);
    assert IsWordSlug("product");
    WildcardQueryAnswer("product", p, seg, q, rx);
  }

  /** Mixed rules, `/account/<seg>/<c>?<q>`, with the route's parenthesised
      token `x`, literal `c` and query token `p`: it matches, at the route's
      node, exactly when the host's regular expression inside `x` accepts
      `seg` and `q` matches `p`. */
  lemma MixedAccount(home: string, product: string, account: string, x: string, c: string, p: string,
                     seg: string, q: string, rx: RegexTest)
    requires MixedHeads(home, product, account)
    requires Slugify(account) == ["account", x, c, p] && IsParenthesised(x) && IsWordSlug(c)
    requires StartsWith(p, '?') && p != "?*"
    ensures Match(Build([home, product, account]), ["account", seg, c, q], rx) ==
              if rx(x[1..|x| - 1], seg) && QsMatch(q, p) then Some(Slugify(account)) else None
  {
    MixedHeadsDiffer(home, product, account);
    MixedFirst("account", rx);
    ThirdRouteAnswer(home, product, account, ["account", seg, c, q], rx);
    assert IsWordSlug("account");
    RegexQueryAnswer("account", x, c, p, seg, q, rx);
  }

  /** Against `?k=v`, a non-wildcard value: `?k=w` matches exactly when `w`
      is `v`. */
  lemma QsMatchOne(k: string, v: string, w: string)
    requires Plain(k) && Plain(v) && Plain(w) && w != "" && v != "*"
    ensures QsMatch("?" + k + "=" + w, "?" + k + "=" + v) <==> w == v
  {
    PairMapOne(k, w);
    PairMapOne(k, v);
    var candidate, wanted := map[k := Some(w)], map[k := Some(v)];
    assert wanted.Keys == {k};
    assert KeyAccepted(candidate, wanted[k], k) <==> w == v;
  }

  /** `?status=active` matches itself; `?status=inactive` does not match it. */
  lemma QueryStatus()
    ensures QsMatch("?status=active", "?status=active")
    ensures !QsMatch("?status=inactive", "?status=active")
  {
    assert "?status=active" == "?" + "status" + "=" + "active";
    assert "?status=inactive" == "?" + "status" + "=" + "inactive";
    QsMatchOne("status", "active", "active");
    QsMatchOne("status", "active", "inactive");
  }

  /** The tokens of the mixed-rules routes. */
  predicate MixedRoutes(home: string, product: string, account: string)
  {
    && Slugify(home) == ["home"]
    && Slugify(product) == ["product", "*", "", "?item=*&color=red"]
    && Slugify(account) == ["account", "(^[0-9]{3,4}$)", "coupons", "?status=active"]
  }

  lemma SpellMixedRegex()
    ensures var x := "(^[0-9]{3,4}$)"; IsParenthesised(x) && x[1..|x| - 1] == "^[0-9]{3,4}$"
  {
  }

  /** The tokens of the mixed-rules routes have the shapes the lemmas above
      ask for. */
  lemma MixedShapes(home: string, product: string, account: string)
    requires MixedRoutes(home, product, account)
    ensures MixedHeads(home, product, account)
    ensures StartsWith("?item=*&color=red", '?') && StartsWith("?status=active", '?')
    ensures IsParenthesised("(^[0-9]{3,4}$)") && IsWordSlug("coupons")
    ensures var x := "(^[0-9]{3,4}$)"; x[1..|x| - 1] == "^[0-9]{3,4}$"
  {
    SpellMixedRegex();
  }

  /** The mixed-rules test for `/product/shirts/...`: `?item=7&color=red`
      matches; `?color=red` and `?item=8&color=blue` do not. */
  lemma MixedRulesProduct(home: string, product: string, account: string, rx: RegexTest)
    requires MixedRoutes(home, product, account)
    ensures var t := Build([home, product, account]);
            && Match(t, ["product", "shirts", "", "?item=7&color=red"], rx) == Some(Slugify(product))
            && Match(t, ["product", "shirts", "", "?color=red"], rx) == None
            && Match(t, ["product", "shirts", "", "?item=8&color=blue"], rx) == None
  {
    var p := "?item=*&color=red";
    MixedShapes(home, product, account);
    QueryMixed();
    MixedProduct(home, product, account, p, "shirts", "?item=7&color=red", rx);
    MixedProduct(home, product, account, p, "shirts", "?color=red", rx);
    MixedProduct(home, product, account, p, "shirts", "?item=8&color=blue", rx);
  }

  /** The mixed-rules test for `/account/...`: `?status=inactive` does not
      match; `777` and `777777` with `?status=active` match exactly when the
      host's `^[0-9]{3,4}$` accepts the segment. */
  lemma MixedRulesAccount(home: string, product: string, account: string, rx: RegexTest)
    requires MixedRoutes(home, product, account)
    ensures var t := Build([home, product, account]);
            && Match(t, ["account", "777", "coupons", "?status=inactive"], rx) == None
            && Match(t, ["account", "777", "coupons", "?status=active"], rx) ==
                 (if rx("^[0-9]{3,4}$", "777") then Some(Slugify(account)) else None)
            && Match(t, ["account", "777777", "coupons", "?status=active"], rx) ==
                 (if rx("^[0-9]{3,4}$", "777777") then Some(Slugify(account)) else None)
  {
    var x, p := "(^[0-9]{3,4}$)", "?status=active";
    MixedShapes(home, product, account);
    QueryStatus();
    MixedAccount(home, product, account, x, "coupons", p, "777", "?status=inactive", rx);
    MixedAccount(home, product, account, x, "coupons", p, "777", "?status=active", rx);
    MixedAccount(home, product, account, x, "coupons", p, "777777", "?status=active", rx);
  }

  /** The mixed-rules test: with `/home`, the product route with a wildcard
      segment and `?item=*&color=red`, and
      `/account/(^[0-9]{3,4}$)/coupons?status=active` defined in that order,
      whatever the host's regular expressions do, `/home` and
      `/product/shirts/?item=7&color=red` match, and
      `/product/shirts/?color=red`, `/product/shirts/?item=8&color=blue` and
      `/account/777/coupons?status=inactive` do not; the two requests with
      `?status=active` match exactly when `^[0-9]{3,4}$` accepts their
      segment. */
  lemma MixedRules(home: string, product: string, account: string, rx: RegexTest)
    requires MixedRoutes(home, product, account)
    ensures var t := Build([home, product, account]);
            && Match(t, ["home"], rx) == Some(["home"])
            && Match(t, ["product", "shirts", "", "?item=7&color=red"], rx) == Some(Slugify(product))
            && Match(t, ["product", "shirts", "", "?color=red"], rx) == None
            && Match(t, ["product", "shirts", "", "?item=8&color=blue"], rx) == None
            && Match(t, ["account", "777", "coupons", "?status=inactive"], rx) == None
            && Match(t, ["account", "777", "coupons", "?status=active"], rx) ==
                 (if rx("^[0-9]{3,4}$", "777") then Some(Slugify(account)) else None)
            && Match(t, ["account", "777777", "coupons", "?status=active"], rx) ==
                 (if rx("^[0-9]{3,4}$", "777777") then Some(Slugify(account)) else None)
  {
    MixedShapes(home, product, account);
    MixedHome(home, product, account, rx);
    MixedRulesProduct(home, product, account, rx);
    MixedRulesAccount(home, product, account, rx);
  }

  // ---------------------------------------------------------------------
  // Regex rules: the single route `/(^(shoes|shirts)$)/`.

  lemma TokensRegexRoute()
    ensures Slugify("/(^(shoes|shirts)$)/") == ["(^(shoes|shirts)$)", ""]
  {
    var segs := ["(^(shoes|shirts)$)", ""];
    assert Join(segs, '/') == "(^(shoes|shirts)$)/";
    SlugifyPath(segs);
    SpellRegexRoute();
  }

  lemma SpellRegexRoute()
    ensures "/" + "(^(shoes|shirts)$)/" == "/(^(shoes|shirts)$)/"
  {
  }

  /** With one route tokenized as a parenthesised `x` and `""`: a request of
      one segment never matches, and `seg`, `""` matches, at the route's
      node, exactly when the host's regular expression inside `x` accepts
      `seg`. */
  lemma RegexRoute(r: string, x: string, seg: string, rx: RegexTest)
    requires Slugify(r) == [x, ""] && IsParenthesised(x)
    ensures Match(Build([r]), [seg], rx) == None
    ensures Match(Build([r]), [seg, ""], rx) == if rx(x[1..|x| - 1], seg) then Some([x, ""]) else None
  {
    NonEmptyRoute(r);
    SingleRouterMatch(r, [seg], rx);
    SingleRouterMatch(r, [seg, ""], rx);
    EdgeAccepts(x, seg, rx);
    EdgeAccepts("", "", rx);
    assert AcceptsPrefix([x, ""], [seg, ""], rx) <==> MatchSlug(seg, Parse(x), rx);
  }

  lemma SpellRegexPattern()
    ensures var x := "(^(shoes|shirts)$)"; IsParenthesised(x) && x[1..|x| - 1] == "^(shoes|shirts)$"
  {
  }

  /** The regex-rules test: with `/(^(shoes|shirts)$)/`, whatever the host's
      regular expressions do, `/shoe` and `/shirt` do not match, and
      `/shoes/` and `/shirts/` match exactly when `^(shoes|shirts)$`
      accepts `shoes` and `shirts`. */
  lemma RegexRules(r: string, rx: RegexTest)
    requires Slugify(r) == ["(^(shoes|shirts)$)", ""]
    ensures Match(Build([r]), ["shoes", ""], rx) == if rx("^(shoes|shirts)$", "shoes") then Some(Slugify(r)) else None
    ensures Match(Build([r]), ["shirts", ""], rx) == if rx("^(shoes|shirts)$", "shirts") then Some(Slugify(r)) else None
    ensures Match(Build([r]), ["shoe"], rx) == None
    ensures Match(Build([r]), ["shirt"], rx) == None
  {
    var x := "(^(shoes|shirts)$)";
    SpellRegexPattern();
    RegexRoute(r, x, "shoes", rx);
    RegexRoute(r, x, "shirts", rx);
    RegexRoute(r, x, "shoe", rx);
    RegexRoute(r, x, "shirt", rx);
  }
}
