# humble-router: a verified model of the `Trie` router

`router.js` holds one class, `Trie`. A trie acts as a router.

- `define(route)` splits a route into tokens and walks the edges keyed by those raw tokens. It creates each missing edge from the token's parse result, then stamps the route on the last node.
- `match(path)` splits a path the same way and descends. At each level it follows the first edge, in `Object.keys` order, whose node accepts the token, and it never backtracks. When the tokens run out it prefers a trailing-wildcard (`?*`) child. Failing that it returns the node itself, if that node carries a non-empty route, and `null` otherwise.

The project has one module per part of the source:

| module | file | what it models |
|---|---|---|
| `Js` | js.dfy | `split`/`join` on one character, `indexOf`, `replace(/^c/, '')`, and the key order of `Object.keys` on a plain object (array-index keys ascending, then insertion order) |
| `Tokenizer` | tokenizer.dfy | `Trie.slugify` |
| `QueryString` | querystring.dfy | `Trie.qsMatch`: both query strings are read into pair maps, and every pattern key is checked |
| `Classifier` | classifier.dfy | the `STATUS` bits (as `bv8`), `Trie.parse` and `Trie.matchSlug` |
| `TrieModel` | triemodel.dfy | the trie as a value (`Node`), with `Define` (`_define` plus `def.path = route`) and `Match` (`_match`, giving the address of the matched node) as functions, and the theorems about them |
| `Router` | router.dfy | the `Trie` class. Each object has the fields `status`, `pattern`, `prefixes`, `path`, `edges` and the insertion order of its keys. Its methods `define`, `match` and the two `find` loops are proved against `TrieModel` |
| `Scenarios` | scenarios.dfy | the assertions of `router.test.js` as lemmas about concrete routers (those that involve a regular expression stated for every `rx`, or relative to what `rx` says of the test's pattern), the tokens of its routes and requests, and the routers that mark where the general theorems stop holding |

The regular-expression test of a `(...)` edge is a parameter `rx: RegexTest`. Each result about matching holds for every `rx`. The two fixed patterns inside `parse` (`[\w.-]+` and `\(.+\)`) are written out as character predicates.

Points where the code decides and prose descriptions of the router differ:

- `parse` keeps the leading `?` in the pattern of a query token. `qsMatch` strips a leading `?` from both sides anyway, so nothing changes.
- `slugify` turns an empty query string (`/items?`) into the token `""`, not `"?"`. The ternary `qs ? '?' + qs : qs` hands back the empty string, and `filter` keeps it because its type is string.
- `define('')` stamps the empty string, which is falsy. `match` then never returns that node: `EmptyRouteUnsets`.
- Adding a route can make an earlier match fail. Array-index keys jump ahead in `Object.keys` order (`ArrayIndexShadows`), and redefining `''` unsets a route (`EmptyRouteUnsets`). `DefineKeepsMatch` proves the property under the conditions that exclude both.
- `match` does not backtrack. A request can have an accepting descent and still not match: `NoBacktracking`.

## Model

| member | source | states |
|---|---|---|
| Js.SplitJoin | router.js:28 | joining the pieces of a `split` gives back the text |
| Js.JoinSplit | router.js:78 | splitting the join of pieces with no separator in them gives back the pieces |
| Js.SplitAtFirst | router.js:75 | the first piece of a `split` is the text before the first separator; there are more pieces exactly when the separator occurs, and they are the pieces of the text after it |
| Js.SplitConcat | router.js:28 | splitting around one separator gives the pieces of each side, concatenated |
| Js.IndexOf | router.js:55 | `indexOf`: the position of the first occurrence, or the length when there is none |
| Js.StripLeading | router.js:27 | `replace(/^c/, '')` drops exactly one leading `c`, and only when it is there |
| Js.SortByIndexSorted | router.js:182 | the array-index keys come out sorted by numeric value, as a permutation of themselves |
| Js.OwnKeysOrder | router.js:182 | `Object.keys` lists every inserted key as often as it was inserted, with array-index keys first in ascending order |
| Js.OwnKeysMembers | router.js:197 | `Object.keys` lists exactly the inserted keys |
| Js.OwnKeysInsertionOrder | router.js:182 | with no array-index keys, `Object.keys` is the insertion order |
| Js.OwnKeysAppendOther | router.js:170 | inserting a key that is not an array index appends it to `Object.keys` |
| Js.OwnKeysSingle | router.js:182 | an object with one own key enumerates that key alone |
| Tokenizer.Slugify | router.js:74-81 | at least one token |
| Tokenizer.SlugifyShape | router.js:74-81 | at least one path token; the path tokens joined by `/` are the text before the first `?` minus one leading `/`; no path token holds `/` or `?`; when the text holds `?` exactly one more token follows, `'?' + q` with `q` the text up to the second `?`, or `""` when `q` is empty; otherwise no more tokens |
| Tokenizer.SlugifyPath | router.js:74-81 | round trip: segments free of `/` and `?`, written with a leading `/`, tokenize back to themselves |
| Tokenizer.SlugifyPathQuery | router.js:74-81 | round trip with a query string: the segments, then the query token |
| QueryString.Pairs | router.js:25-28 | a query string has at least one `&`-pair |
| QueryString.PairMapLast | router.js:29-34 | the `reduce` maps a key exactly when some pair has it, to the value of the last such pair (a later duplicate overwrites) |
| QueryString.QsMatchByPairs | router.js:24-47 | `qsMatch` holds exactly when, for each key of the pattern, the candidate's last pair with that key has a non-empty value, and the pattern's value is `*` or equal to it |
| QueryString.QsMatchMissingKey | router.js:37-43 | a pattern key that no candidate pair carries makes `qsMatch` false |
| QueryString.LastValueUnique | router.js:29-34 | with distinct keys, a key's value is that of the one pair holding it |
| QueryString.PairMapPermutation | router.js:25-35 | permuting pairs with distinct keys leaves the pair map unchanged |
| QueryString.QsMatchOrderInsensitive | router.js:24-47 | `qsMatch` is unchanged when the `&`-pairs are permuted on either side, keys distinct |
| QueryString.QsMatchExtraPairs | router.js:37-46 | appending candidate pairs whose keys the pattern does not name keeps `qsMatch` true |
| QueryString.QsMatchItself | router.js:37-46 | a query string matches itself exactly when every key ends with a non-empty value |
| Classifier.Parse | router.js:49-72 | the status is one of 0, 2, 128, 65, 80, 72, 68; the pattern is the token, except for a `(...)` token, where it is the token without its first and last characters |
| Classifier.ParseRules | router.js:53-66 | each status comes from exactly one kind of token, in the order of the `if` chain: `?*`, other `?`-tokens, `""`, `[\w.-]+`, `(` at least one non-line-terminator `)`, `*`, anything else 0 |
| Classifier.ParseFlags | router.js:53-66 | only `?*` carries the trailing-wildcard bit; the path bit marks exactly the recognised tokens not starting with `?` |
| Classifier.PathSegmentStatus | router.js:55-66 | a token without `?` gets a path status or 0 |
| Classifier.EdgeAccepts | router.js:83-123 | what the edge of each kind of token accepts: `?*` the `?`-tokens, a query token per `qsMatch`, `""` only `""`, a word only itself, `(...)` per the regex test, `*` everything, status 0 nothing |
| Classifier.LiteralAcceptsItself | router.js:87-98 | an empty or word edge accepts exactly its own token |
| Classifier.UnknownStatusRejects | router.js:86-122 | a status the switch does not list accepts nothing |
| TrieModel.DefinePathAt | router.js:144-174 | after `define`, the node at exactly the tokens carries the route, and every other address keeps its route |
| TrieModel.DefineHas | router.js:159-174 | after `define`, the nodes are the old ones plus those along the tokens |
| TrieModel.DefineOffPath | router.js:159-174 | no node off the token path changes, nor its subtree |
| TrieModel.DefineAlongPath | router.js:164-171 | along the tokens, a node keeps its status, pattern and edges, and gains the next token in its key order only when that edge was missing |
| TrieModel.DefineIdempotent | router.js:144-174 | defining a route a second time changes nothing |
| TrieModel.DefineWF | router.js:166-171 | the key order keeps listing every edge once |
| TrieModel.DefineClassified | router.js:166-170 | every created child carries `parse` of its key; the node's own status and pattern stay |
| TrieModel.EdgeCount | router.js:169 | the number of edges equals the length of the key order, which `prefixes` counts |
| TrieModel.FindEdge | router.js:182-184 | `find` over the children: no earlier child accepts the token, and the one found does |
| TrieModel.FindTrailing | router.js:197-199 | `find` of the first child carrying the trailing-wildcard bit |
| TrieModel.FindEdgeIs | router.js:182-184 | the first accepting position is unique |
| TrieModel.Match | router.js:176-210 | a match is always the address of an existing node |
| TrieModel.MatchSound | router.js:176-210 | every match is an accepting descent: each edge accepts its token, and at the end the node has a non-empty route or one more step reaches a trailing-wildcard child |
| TrieModel.LastWith | router.js:144-149 | finds a defined route with the given tokens when one exists, and nothing exactly when no route has them |
| TrieModel.LastWithLast | router.js:144-149 | the route found sits at a position after which no route has those tokens: it is the last one defined |
| TrieModel.BuildPathAt | router.js:144-149 | the route stamped at each address is the last defined route with exactly those tokens |
| TrieModel.BuildWF | router.js:159-174 | a router built by `define` calls keeps every key order exact and every child classified by `parse` |
| TrieModel.BuildHas | router.js:159-174 | a router's nodes are the root and the prefixes of defined token sequences |
| TrieModel.StaticFind | router.js:182-184 | in a literal trie, a literal token picks its own edge, a `?`-token the `?*` edge, and anything else no edge |
| TrieModel.StaticMatch | router.js:176-210 | on a trie of literal tokens and `?*` leaves, `match` equals the reference answer |
| TrieModel.DefineStatic | router.js:159-174 | defining static routes keeps the trie static |
| TrieModel.BuildStatic | router.js:144-174 | a router of static routes is a static trie |
| TrieModel.StaticRoutesMatch | router.js:176-210 | when every route is static, a request's literal tokens match the `?*` node of the route they spell, or the last route with those tokens |
| TrieModel.BuildTrailingHas | router.js:159-174 | among static routes, a `?*` node exists exactly where a route ends in `?*` |
| TrieModel.LiteralRoutesMatchTokens | router.js:205-209 | when every route has literal tokens, a token sequence matches exactly when the last route with it is non-empty, and the match is that route's node |
| TrieModel.LiteralRoutesMatch | router.js:151-153 | the same for a request path, through `slugify` |
| TrieModel.DefineExtends | router.js:166-171 | a `define` whose first token is not an array index keeps every child, and enumerates the old children first |
| TrieModel.ExtendsFindEdge | router.js:182-184 | the scan stops at the same child once the children it passes over are kept |
| TrieModel.DefineKeepsMatch | router.js:176-210 | a matching token sequence still matches after `define` of a non-empty route whose tokens are not array indices |
| TrieModel.DefineMoreKeepsMatch | router.js:144-153 | the same for a router and a request path |
| TrieModel.SingleRouteMatch | router.js:176-210 | below a chain created by `define` of one route, `match` gives the reference answer `ChainAnswer`: the route's node exactly when the request has the route's length, or one token fewer where the route ends in `?*`, and each request token passes the edge of the route's token at the same position; otherwise nothing |
| TrieModel.SingleRouterMatch | router.js:144-153 | the same for a router holding one non-empty route |
| TrieModel.BuildThreeHeads | router.js:159-174 | three routes with different first tokens give a root with one edge per first token, in definition order, each holding the chain `define` builds for its route alone |
| TrieModel.ThreeKeysFind | router.js:182-184 | at a node with three classified edges, `find` picks the first of the three keys whose edge accepts the segment, and none when no edge does |
| TrieModel.ThreeHeadsRouter | router.js:176-210 | a router of three non-empty routes with different first tokens, none an array index: a request gets the reference answer of the first route whose first edge accepts its first segment, and nothing when none does, even when a later route would accept the whole request |
| Router.Trie.constructor | router.js:134-139 | `new Trie(options)`: a valid object with the given status and pattern, no route and no edges |
| Router.Trie.Root | router.js:134-139 | `new Trie()`: the root, with status and pattern unset |
| Router.Trie.At | router.js:173 | the object at an address exists exactly when the value has a node there |
| Router.Trie.AtFacts | router.js:173 | the object at an address belongs to this trie, is valid, and stands for the node at that address |
| Router.Trie.FindChild | router.js:182-184 | the loop over `Object.keys` returns the first child accepting the token |
| Router.Trie.FindTrailingChild | router.js:197-199 | the loop returns the first child with the trailing-wildcard bit |
| Router.Trie.MatchSlugs | router.js:176-194 | `_match` returns the object at the address `TrieModel.Match` finds, `null` exactly when that finds nothing |
| Router.Trie.Match | router.js:151-153 | `match(path)` returns the object at the address the value model matches |
| Router.Trie.PrefixesCount | router.js:169 | in a valid object, `prefixes` equals the number of edges |
| Router.Trie.AddEdge | router.js:166-171 | the new child is stored under the key, appended to the key order, and counted in `prefixes`; the result is valid |
| Router.Trie.EnsureEdge | router.js:166-171 | the edge exists afterwards; it is created from `parse(key)` only when missing |
| Router.Trie.SetPath | router.js:146 | `def.path = route`, nothing else changes |
| Router.Trie.DefineSlugs | router.js:159-174 | `_define` plus the route stamp: the value becomes `TrieModel.Define` of the old one, and the returned object is the one at the tokens' address, carrying the route |
| Router.Trie.DefineFirst | router.js:164-173 | the same for a non-empty token list |
| Router.Trie.Descend | router.js:173 | the recursive call updates only the child's subtree |
| Router.Trie.Absorb | router.js:173 | after the recursive call returns, the object is valid again with the child's new value |
| Router.Trie.Define | router.js:144-149 | `define(route)`: the value becomes `TrieModel.Define` on the route's tokens; the returned object sits at those tokens and carries the route |
| Scenarios.TokensWord | router.js:74-81 | a path `/w`, for `w` without `/` or `?`, has the single token `w` |
| Scenarios.TokensWordSlash | router.js:74-81 | a path `/w/` tokenizes as `w`, `""` |
| Scenarios.TokensWordPaths | router.test.js:9-11 | the one-segment paths of the tests, `/home`, `/product`, `/items` (line 69) and `/homes` (line 73), each have their word as single token |
| Scenarios.TokensSlashPaths | router.test.js:45 | `/home/` and the request `/product/` (line 67) end in an empty token |
| Scenarios.TokensShoes | router.test.js:17 | `/product/shoes/1/details` has four tokens |
| Scenarios.TokensProductTrailing | router.test.js:64 | `/product/?*` tokenizes as `product`, `""`, `?*` |
| Scenarios.TokensItemsTrailing | router.test.js:65 | `/items?*` tokenizes as `items`, `?*` |
| Scenarios.TokensProductWildcard | router.test.js:78 | `/product/*/` tokenizes as `product`, `*`, `""` |
| Scenarios.TokensProductWildcardDetails | router.test.js:79 | `/product/*/details` tokenizes as `product`, `*`, `details` |
| Scenarios.TokensRequestProductId | router.test.js:68 | `/product/?id=3` tokenizes as `product`, `""`, `?id=3` |
| Scenarios.TokensRequestItemsQuery | router.test.js:70 | `/items?id=3` tokenizes as `items`, `?id=3` |
| Scenarios.TokensRequestProductThree | router.test.js:72 | `/product/3/` tokenizes as `product`, `3`, `""` |
| Scenarios.NoMatchedRule | router.test.js:7-12 | with `/home` defined, `/product` does not match |
| Scenarios.StringRules | router.test.js:14-41 | with `/home` and `/product/shoes/1/details`, both match, at the nodes carrying their routes |
| Scenarios.SlashSensitive | router.test.js:43-49 | with `/home/`, `/home/` matches and `/home` does not |
| Scenarios.TrailingWildcard | router.test.js:62-74 | with `/product/?*` and `/items?*`: `/product/`, `/product/?id=3`, `/items`, `/items?id=3` match at the trailing-wildcard nodes; `/product/3/` and `/homes` do not |
| Scenarios.WildcardRules | router.test.js:76-86 | with `/product/*/` and `/product/*/details`: any middle segment matches both, at their nodes; `/homes` does not |
| Scenarios.EmptyRouteUnsets | router.js:144-149 | `/` matches after `define('/')`, and no longer after a further `define('')` |
| Scenarios.ArrayIndexShadows | router.js:182 | a route tokenized `1`, `x` makes the request `1`, which matched `*`, stop matching |
| Scenarios.NoBacktracking | router.js:182-194 | a request with an accepting descent may still not match, because `match` commits to the first accepting edge |
| Scenarios.PairMapOne | router.js:25-35 | the pair map of `?k=v`, for `k` and `v` without `=` or `&`, maps `k` to `v` |
| Scenarios.PairMapTwo | router.js:25-35 | the pair map of `?k1=v1&k2=v2` maps each key to its value, the later pair winning |
| Scenarios.PairMapThree | router.js:25-35 | the same for three pairs |
| Scenarios.QsMatchSwapped | router.js:24-47 | three pairs with distinct keys and non-empty values match the same pairs with the last two swapped |
| Scenarios.QsMatchWildcardFirst | router.js:37-43 | with `k1=*` first in the pattern, a candidate with a non-empty `k1` and the pattern's `k2` matches exactly when its `k3` has the pattern's value |
| Scenarios.QsMatchWildcardTwo | router.js:37-43 | against `?k1=*&k2=v2`, a candidate `?k1=v1&k2=w` matches exactly when `w` is `v2`, and `?k2=w` never does |
| Scenarios.QueryStringPermuted | router.test.js:88-93 | `?item=3&color=brown&size=5` matches `?item=3&size=5&color=brown` |
| Scenarios.QueryWildcardItem | router.test.js:95-103 | against `?item=*&size=5&color=brown`, a query `?item=v&color=brown&size=w` with non-empty `v` and `w` matches exactly when `w` is `5` |
| Scenarios.QueryWildcard | router.test.js:95-103 | the four query strings of the wildcard test: `item=5`, `6` and `7` match, `size=7` does not |
| Scenarios.QueryMixedMatch | router.test.js:112 | `?item=7&color=red` matches `?item=*&color=red` |
| Scenarios.QueryMixedMissing | router.test.js:115 | `?color=red` does not match `?item=*&color=red`, because `item` is missing |
| Scenarios.QueryMixedColor | router.test.js:116 | `?item=8&color=blue` does not match `?item=*&color=red` |
| Scenarios.QueryMixed | router.test.js:105-116 | the three query parts of the mixed-rules test against `?item=*&color=red` |
| Scenarios.TokensProductQuery | router.js:74-81 | `/product/?q`, for a query string `q` with no `?`, tokenizes as `product`, `""`, `?q` |
| Scenarios.TokensQueryString | router.test.js:90 | `/product/?item=3&size=5&color=brown` tokenizes as `product`, `""`, and its query token |
| Scenarios.TokensQueryWildcard | router.test.js:97 | `/product/?item=*&size=5&color=brown` tokenizes as `product`, `""`, and its query token |
| Scenarios.TokensRequestItem3 | router.test.js:92 | `/product/?item=3&color=brown&size=5` tokenizes as `product`, `""`, and its query token |
| Scenarios.TokensRequestItem5 | router.test.js:99 | the request with `item=5` tokenizes as `product`, `""`, and its query token |
| Scenarios.TokensRequestItem6 | router.test.js:100 | the same for `item=6` |
| Scenarios.TokensRequestItem7 | router.test.js:101 | the same for `item=7` |
| Scenarios.TokensRequestSize7 | router.test.js:102 | the same for the request with `size=7` |
| Scenarios.ProductQueryAccepts | router.js:83-123 | the request tokens `product`, `""`, `q` pass the edges of the route tokens `product`, `""`, `p` exactly when `qsMatch(q, p)` |
| Scenarios.ProductQueryRule | router.js:144-210 | with one route tokenized `product`, `""`, `p`, the request `product`, `""`, `q` matches at the route's node exactly when `qsMatch(q, p)`, and nothing matches otherwise |
| Scenarios.QueryStringRule | router.test.js:88-93 | with `/product/?item=3&size=5&color=brown`, the request `/product/?item=3&color=brown&size=5` matches at the node carrying that route |
| Scenarios.QueryWildcardRule | router.test.js:95-103 | with `/product/?item=*&size=5&color=brown`, the requests with `item=5`, `6` and `7` match at the route's node, and the one with `size=7` does not |
| Scenarios.TokensSegmentsQuery | router.js:74-81 | `/k/seg/c?q`, for segments without `/` or `?` and a non-empty `q` without `?`, tokenizes as `k`, `seg`, `c`, `?q` |
| Scenarios.TokensMixedProduct | router.test.js:108 | `/product/*/?item=*&color=red` tokenizes as `product`, `*`, `""`, `?item=*&color=red` |
| Scenarios.TokensMixedAccount | router.test.js:109 | `/account/(^[0-9]{3,4}$)/coupons?status=active` tokenizes as `account`, the regex token, `coupons`, `?status=active` |
| Scenarios.TokensMixedShirts | router.test.js:112 | `/product/shirts/?item=7&color=red` tokenizes as `product`, `shirts`, `""`, and its query token |
| Scenarios.TokensMixedCoupons | router.test.js:113 | `/account/777/coupons?status=active` tokenizes as `account`, `777`, `coupons`, `?status=active` |
| Scenarios.TokensMixedShirtsColor | router.test.js:115 | `/product/shirts/?color=red` tokenizes as `product`, `shirts`, `""`, `?color=red` |
| Scenarios.TokensMixedShirtsBlue | router.test.js:116 | `/product/shirts/?item=8&color=blue` tokenizes as `product`, `shirts`, `""`, and its query token |
| Scenarios.TokensMixedInactive | router.test.js:117 | `/account/777/coupons?status=inactive` tokenizes as `account`, `777`, `coupons`, `?status=inactive` |
| Scenarios.TokensMixedLong | router.test.js:118 | `/account/777777/coupons?status=active` tokenizes as `account`, `777777`, `coupons`, `?status=active` |
| Scenarios.MixedHeadsDiffer | router.test.js:107-109 | the three mixed-rules routes are non-empty and start with different tokens, none an array index |
| Scenarios.MixedFirst | router.js:87-98 | the first edges `home`, `product` and `account` each accept only their own word |
| Scenarios.WildcardQueryAnswer | router.js:83-123 | the request `k`, `seg`, `""`, `q` gets the reference answer of route tokens `k`, `*`, `""`, `p` exactly when `qsMatch(q, p)` |
| Scenarios.RegexQueryAnswer | router.js:83-123 | the request `k`, `seg`, `c`, `q` gets the reference answer of route tokens `k`, `(x)`, `c`, `p` exactly when the regex test of `x` accepts `seg` and `qsMatch(q, p)` |
| Scenarios.MixedHome | router.test.js:111 | with the three mixed-rules routes, `home` matches at the node of `/home` |
| Scenarios.MixedProduct | router.test.js:112-116 | with them, `product`, any segment, `""`, `q` matches at the product route's node exactly when `qsMatch(q, p)` |
| Scenarios.MixedAccount | router.test.js:113-118 | with them, `account`, `seg`, `coupons`, `q` matches at the account route's node exactly when the regex test accepts `seg` and `qsMatch(q, p)` |
| Scenarios.QsMatchOne | router.js:37-43 | a one-pair candidate matches a one-pair pattern with the same key and a non-`*` value exactly when the values agree |
| Scenarios.QueryStatus | router.test.js:113-117 | `?status=active` matches itself; `?status=inactive` does not match it |
| Scenarios.MixedShapes | router.test.js:107-109 | the mixed-rules routes have the shapes `MixedProduct` and `MixedAccount` ask for, with the regex `^[0-9]{3,4}$` |
| Scenarios.MixedRulesProduct | router.test.js:112-116 | for every regex test: `/product/shirts/?item=7&color=red` matches the product route, `/product/shirts/?color=red` and `/product/shirts/?item=8&color=blue` match nothing |
| Scenarios.MixedRulesAccount | router.test.js:113-118 | `/account/777/coupons?status=inactive` matches nothing for every regex test; the `status=active` requests for `777` and `777777` match the account route exactly when `^[0-9]{3,4}$` accepts the segment |
| Scenarios.MixedRules | router.test.js:105-119 | the seven matches of the mixed-rules test on the tokens of its requests, the two regex-dependent ones relative to the regex test |
| Scenarios.TokensRegexRoute | router.test.js:52 | `/(^(shoes\|shirts)$)/` tokenizes as the regex token and `""` |
| Scenarios.RegexRoute | router.js:83-123 | with one route tokenized `(x)`, `""`: a one-segment request never matches, and `seg`, `""` matches exactly when the regex test of `x` accepts `seg` |
| Scenarios.RegexRules | router.test.js:50-59 | for every regex test, `/shoe` and `/shirt` match nothing, and `/shoes/` and `/shirts/` match the route exactly when `^(shoes\|shirts)$` accepts the segment |

## Left out

- `debug()` (router.js:155-157) writes to the console. It is not modelled.
- The regular-expression edge (router.js:103) calls the host's `RegExp`. The test is the parameter `rx`, which stands for a pattern that compiles. `new RegExp` throwing a `SyntaxError` on an invalid pattern, which aborts `match` (router.js:182-184), is not modelled.
- Scenarios.RegexRules: states `/shoes/` and `/shirts/` (router.test.js:54-55) relative to what the host's `^(shoes|shirts)$` accepts, since the host's regular expressions are a parameter; `/shoe` and `/shirt` (router.test.js:57-58) hold for every regex test.
- Scenarios.MixedRules: states router.test.js:113 and 118 relative to what the host's `^[0-9]{3,4}$` accepts of `777` and `777777`; the other five assertions hold for every regex test. It and `RegexRules` are stated on the tokens of the requests; the `Tokens…` lemmas give those tokens for each request path.
- Keys such as `constructor` or `__proto__` reach `Object.prototype` in `this.edges` and in the `qsMatch` accumulator (router.js:31, 166). `edges` and the accumulator are modelled as finite maps with no inherited keys.
- `slugs.shift()` (router.js:164, 181) empties the caller's array. The model takes `slugs[1..]` instead. No caller sees the emptied array, because `define` and `match` each pass a fresh `slugify` result.
- `define` sets `def.path` after `_define` returns (router.js:145-146). The object model sets it when the descent reaches the last node. This is equivalent, because nothing reads the path in between.
- The root's `status` and `pattern` are `undefined` (router.js:134-139). They are modelled as 0 and `""`. `matchSlug` never reads the root's fields.
- Strings are sequences of Unicode characters, not UTF-16 code units. The two fixed patterns of `parse` accept the same strings either way.
- The weighting comments (router.js:4-5, 125, 141-143) describe nothing that is implemented. The Flow types and the generic `T` carry no behaviour.
- TrieModel.DefineKeepsMatch: states that adding a route keeps a match only for a non-empty route whose tokens are not array indices. The router does not keep matches in general: `ArrayIndexShadows` and `EmptyRouteUnsets` are the counterexamples.
- Router.Trie.Define: does not promise that the objects it creates are freshly allocated. It promises they are apart from the objects its caller names (the ghost `outside` set of `DefineSlugs`). It also does not state that objects already in the trie keep their identity. `TrieModel.DefineOffPath` states the value-level form of that.
