/** The `STATUS` bit flags, `Trie.parse` (status and pattern of one raw
    token) and `Trie.matchSlug` (whether an edge accepts a token). */
module Classifier {
  import opened Js
  import opened QueryString

  const PAT_EMPTY: bv8 := 1 << 0
  const PAT_TRAILING_WILDCARD: bv8 := 1 << 1
  const PAT_WILDCARD: bv8 := 1 << 2
  const PAT_REGEX: bv8 := 1 << 3
  const PAT_STR: bv8 := 1 << 4
  const SLUG_PATH: bv8 := 1 << 6
  const SLUG_QS: bv8 := 1 << 7

  /** The status values `parse` can produce (0 is "unmatchable"). */
  const KnownStatuses: set<bv8> := {
    0, PAT_TRAILING_WILDCARD, SLUG_QS, SLUG_PATH | PAT_EMPTY, SLUG_PATH | PAT_STR,
    SLUG_PATH | PAT_REGEX, SLUG_PATH | PAT_WILDCARD
  }

  /** What `parse` hands to the node constructor. */
  datatype Options = Options(status: bv8, pattern: string)

  /** A character of the class `[\w.-]` (ASCII letters, digits, `_`, `.`, `-`). */
  predicate IsWordChar(c: char)
  {
    || 'a' <= c <= 'z' || 'A' <= c <= 'Z' || '0' <= c <= '9'
    || c == '_' || c == '.' || c == '-'
  }

  /** `/^[\w.-]+$/.test(slug)`. */
  predicate IsWordSlug(slug: string)
  {
    |slug| >= 1 && forall i :: 0 <= i < |slug| ==> IsWordChar(slug[i])
  }

  /** The characters `.` does not match in a JavaScript regular expression. */
  predicate IsLineTerminator(c: char)
  {
    c == '\n' || c == '\r' || c == '\U{2028}' || c == '\U{2029}'
  }

  /** `/^\(.+\)$/.test(slug)`: `(`, at least one character that is not a line
      terminator, and `)`, with nothing else. */
  predicate IsParenthesised(slug: string)
  {
    && |slug| >= 3
    && slug[0] == '('
    && slug[|slug| - 1] == ')'
    && forall i :: 1 <= i < |slug| - 1 ==> !IsLineTerminator(slug[i])
  }

  /** `Trie.parse(slug)`: the first rule that applies decides. */
  function Parse(slug: string): (o: Options)
    ensures o.status in KnownStatuses
    ensures o.status == SLUG_PATH | PAT_REGEX ==> |slug| >= 2 && o.pattern == slug[1..|slug| - 1]
    ensures o.status != SLUG_PATH | PAT_REGEX ==> o.pattern == slug
  {
    if slug == "?*" then Options(PAT_TRAILING_WILDCARD, slug)
    else if StartsWith(slug, '?') then Options(SLUG_QS, slug)
    else if slug == "" then Options(SLUG_PATH | PAT_EMPTY, slug)
    else if IsWordSlug(slug) then Options(SLUG_PATH | PAT_STR, slug)
    else if IsParenthesised(slug) then Options(SLUG_PATH | PAT_REGEX, slug[1..|slug| - 1])
    else if slug == "*" then Options(SLUG_PATH | PAT_WILDCARD, slug)
    else Options(0, slug)
  }

  /** Each status comes from exactly one kind of token: the rules overlap only
      in `?*` against the other `?`-tokens, where `?*` comes first. */
  lemma ParseRules(slug: string)
    ensures Parse(slug).status == PAT_TRAILING_WILDCARD <==> slug == "?*"
    ensures Parse(slug).status == SLUG_QS <==> StartsWith(slug, '?') && slug != "?*"
    ensures Parse(slug).status == SLUG_PATH | PAT_EMPTY <==> slug == ""
    ensures Parse(slug).status == SLUG_PATH | PAT_STR <==> IsWordSlug(slug)
    ensures Parse(slug).status == SLUG_PATH | PAT_REGEX <==> IsParenthesised(slug)
    ensures Parse(slug).status == SLUG_PATH | PAT_WILDCARD <==> slug == "*"
    ensures Parse(slug).status == 0 <==>
              !StartsWith(slug, '?') && slug != "" && slug != "*" && !IsWordSlug(slug) && !IsParenthesised(slug)
  {
    if IsWordSlug(slug) {
      assert IsWordChar(slug[0]);
    }
  }

  /** `status & STATUS.PAT_TRAILING_WILDCARD`, read as a boolean. */
  predicate HasTrailingBit(status: bv8)
  {
    status & PAT_TRAILING_WILDCARD != 0
  }

  /** The flag tests on a parsed status: only `?*` carries the trailing
      wildcard bit, and the path bit marks the path-segment kinds. */
  lemma ParseFlags(slug: string)
    ensures HasTrailingBit(Parse(slug).status) <==> slug == "?*"
    ensures Parse(slug).status & SLUG_PATH != 0 <==> !StartsWith(slug, '?') && Parse(slug).status != 0
  {
    ParseRules(slug);
  }

  /** A token free of `?` (every path segment of a tokenized route) never
      gets a query or trailing-wildcard status. */
  lemma PathSegmentStatus(slug: string)
    requires '?' !in slug
    ensures Parse(slug).status & SLUG_PATH != 0 || Parse(slug).status == 0
  {
    ParseFlags(slug);
  }

  /** `new RegExp(pattern).test(slug)`, supplied by the host. */
  type RegexTest = (string, string) -> bool

  /** `Trie.matchSlug(slug, node)`: a switch on the exact status value. */
  function MatchSlug(slug: string, node: Options, regexTest: RegexTest): bool
  {
    if node.status == SLUG_PATH | PAT_EMPTY then slug == ""
    else if node.status == SLUG_PATH | PAT_STR then slug == node.pattern
    else if node.status == SLUG_PATH | PAT_WILDCARD then true
    else if node.status == SLUG_PATH | PAT_REGEX then regexTest(node.pattern, slug)
    else if node.status == SLUG_QS then QsMatch(slug, node.pattern)
    else if node.status == PAT_TRAILING_WILDCARD then StartsWith(slug, '?')
    else false
  }

  /** What the edge created for the raw token `key` accepts. */
  lemma EdgeAccepts(key: string, slug: string, regexTest: RegexTest)
    ensures key == "?*" ==> (MatchSlug(slug, Parse(key), regexTest) <==> StartsWith(slug, '?'))
    ensures StartsWith(key, '?') && key != "?*" ==> (MatchSlug(slug, Parse(key), regexTest) <==> QsMatch(slug, key))
    ensures key == "" ==> (MatchSlug(slug, Parse(key), regexTest) <==> slug == "")
    ensures IsWordSlug(key) ==> (MatchSlug(slug, Parse(key), regexTest) <==> slug == key)
    ensures IsParenthesised(key) ==>
              (MatchSlug(slug, Parse(key), regexTest) <==> regexTest(key[1..|key| - 1], slug))
    ensures key == "*" ==> MatchSlug(slug, Parse(key), regexTest)
    ensures Parse(key).status == 0 ==> !MatchSlug(slug, Parse(key), regexTest)
  {
    ParseRules(key);
  }

  /** A literal token (empty or `[\w.-]+`) accepts exactly itself. */
  lemma LiteralAcceptsItself(key: string, slug: string, regexTest: RegexTest)
    requires Parse(key).status == SLUG_PATH | PAT_EMPTY || Parse(key).status == SLUG_PATH | PAT_STR
    ensures MatchSlug(slug, Parse(key), regexTest) <==> slug == key
  {
    ParseRules(key);
  }

  /** An unrecognised status accepts nothing. */
  lemma UnknownStatusRejects(slug: string, node: Options, regexTest: RegexTest)
    requires node.status !in KnownStatuses || node.status == 0
    ensures !MatchSlug(slug, node, regexTest)
  {
  }
}
