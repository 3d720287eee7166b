/**
 * The Figma URL parser of the d2c-figma skill: from a Figma design URL it
 * extracts the file key and, when present, the node id in API form.
 *
 * The parser is three regular-expression searches over the whole URL; it
 * never splits the URL into scheme, path and query. The model follows the
 * searches literally: a search reports the earliest position where its
 * pattern matches, and a character class followed by `+` consumes the
 * longest run of characters in the class (no backtracking can shorten it,
 * because in each pattern what follows the run is either nothing or a
 * literal `/` that the class excludes).
 */
module FigmaUrl {
  import opened Wrappers
  import opened Sequences
  import opened Ascii

  /** The two halves of the parse: `(file_key, node_id)`, either of which may be `None`. */
  datatype ParsedUrl = ParsedUrl(fileKey: Option<string>, nodeId: Option<string>)

  const Design: string := "/design/"
  const Branch: string := "/branch/"
  const NodeIdParam: string := "node-id="

  predicate StartsWithAt(s: string, i: nat, lit: string) {
    i + |lit| <= |s| && s[i..i + |lit|] == lit
  }

  /** The class `[^/]`. */
  predicate NotSlash(c: char) {
    c != '/'
  }

  /** The class `[\d-]`. */
  predicate IsNodeIdChar(c: char) {
    IsDigit(c) || c == '-'
  }

  /** A file or branch key as `[^/]+` captures it: non-empty, without `/`. */
  predicate IsSegment(s: string) {
    s != [] && '/' !in s
  }

  /** The number of characters a greedy `[class]*` consumes from position `i`. */
  function RunLength(s: string, i: nat, inClass: char -> bool): (n: nat)
    requires i <= |s|
    ensures i + n <= |s|
    ensures forall k :: i <= k < i + n ==> inClass(s[k])
    ensures i + n == |s| || !inClass(s[i + n])
    decreases |s| - i
  {
    if i == |s| || !inClass(s[i]) then 0 else 1 + RunLength(s, i + 1, inClass)
  }

  /** The text a greedy `([class]+)` group captures from position `i`. */
  function Run(s: string, i: nat, inClass: char -> bool): string
    requires i <= |s|
  {
    s[i..i + RunLength(s, i, inClass)]
  }

  /**
   * `re.search`: the earliest position at or after `from` where the pattern
   * matches, or `None` when it matches nowhere.
   */
  function Search(s: string, from: nat, matchesAt: (string, nat) -> bool): (r: Option<nat>)
    requires from <= |s|
    ensures r.Some? ==> from <= r.value < |s| && matchesAt(s, r.value)
    ensures r.Some? ==> forall j :: from <= j < r.value ==> !matchesAt(s, j)
    ensures r.None? ==> forall j :: from <= j < |s| ==> !matchesAt(s, j)
    decreases |s| - from
  {
    if from == |s| then None
    else if matchesAt(s, from) then Some(from)
    else Search(s, from + 1, matchesAt)
  }

  /** `/design/([^/]+)` matches at `i`. */
  predicate DesignMatchAt(s: string, i: nat) {
    StartsWithAt(s, i, Design) && RunLength(s, i + |Design|, NotSlash) > 0
  }

  /** `/design/([^/]+)/branch/([^/]+)` matches at `i`. */
  predicate BranchMatchAt(s: string, i: nat) {
    DesignMatchAt(s, i) &&
    var k := i + |Design| + RunLength(s, i + |Design|, NotSlash);
    StartsWithAt(s, k, Branch) && RunLength(s, k + |Branch|, NotSlash) > 0
  }

  /** `node-id=([\d-]+)` matches at `i`. */
  predicate NodeIdMatchAt(s: string, i: nat) {
    StartsWithAt(s, i, NodeIdParam) && RunLength(s, i + |NodeIdParam|, IsNodeIdChar) > 0
  }

  /** Group 1 of the design pattern. */
  function DesignKeyAt(s: string, i: nat): string
    requires DesignMatchAt(s, i)
  {
    Run(s, i + |Design|, NotSlash)
  }

  /** Group 2 of the branch pattern. */
  function BranchKeyAt(s: string, i: nat): string
    requires BranchMatchAt(s, i)
  {
    Run(s, i + |Design| + RunLength(s, i + |Design|, NotSlash) + |Branch|, NotSlash)
  }

  /** `str.replace('-', ':')`: every `-` becomes `:`, every other character stays. */
  function DashesToColons(s: string): (r: string)
    ensures |r| == |s|
    ensures forall k :: 0 <= k < |s| ==> r[k] == if s[k] == '-' then ':' else s[k]
  {
    if s == [] then [] else [if s[0] == '-' then ':' else s[0]] + DashesToColons(s[1..])
  }

  /** Group 1 of the node-id pattern at `i`, in API form (empty where `node-id=` does not fit). */
  function NodeIdAt(s: string, i: nat): string {
    if i + |NodeIdParam| <= |s| then DashesToColons(Run(s, i + |NodeIdParam|, IsNodeIdChar)) else []
  }

  /** What `re.search` followed by a group read yields: the capture at the first match, if any. */
  function FirstCapture(s: string, matchesAt: (string, nat) -> bool, capture: (string, nat) -> string): Option<string> {
    match Search(s, 0, matchesAt)
    case Some(i) => Some(capture(s, i))
    case None => None
  }

  /** The file key: the branch key of the first branch match, else the key of the first design match. */
  function FileKey(url: string): (key: Option<string>)
    ensures key.Some? ==> IsSegment(key.value)
    ensures key.None? <==> forall i :: 0 <= i < |url| ==> !DesignMatchAt(url, i)
  {
    match Search(url, 0, BranchMatchAt)
    case Some(i) => Some(BranchKeyAt(url, i))
    case None =>
      match Search(url, 0, DesignMatchAt)
      case Some(i) => Some(DesignKeyAt(url, i))
      case None => None
  }

  /** The node id of the first node-id match, with `-` rewritten to `:`. */
  function NodeId(url: string): (id: Option<string>)
    ensures id.Some? ==> id.value != []
    ensures id.Some? ==> forall k :: 0 <= k < |id.value| ==> IsDigit(id.value[k]) || id.value[k] == ':'
    ensures id.None? <==> forall i :: 0 <= i < |url| ==> !NodeIdMatchAt(url, i)
  {
    FirstCapture(url, NodeIdMatchAt, NodeIdAt)
  }

  /**
   * `parse_figma_url`. A file key, when found, is a non-empty run without
   * `/`; it is found exactly when some `/design/` is followed by a character
   * other than `/`. A node id, when found, is non-empty and made of digits
   * and `:` only; it is found exactly when some `node-id=` is followed by a
   * digit or `-`.
   */
  function ParseFigmaUrl(url: string): (r: ParsedUrl)
    ensures url == "" ==> r == ParsedUrl(None, None)
    ensures r.fileKey.Some? ==> IsSegment(r.fileKey.value)
    ensures r.fileKey.None? <==> forall i :: 0 <= i < |url| ==> !DesignMatchAt(url, i)
    ensures r.nodeId.Some? ==> r.nodeId.value != []
    ensures r.nodeId.Some? ==> forall k :: 0 <= k < |r.nodeId.value| ==>
                                 IsDigit(r.nodeId.value[k]) || r.nodeId.value[k] == ':'
    ensures r.nodeId.None? <==> forall i :: 0 <= i < |url| ==> !NodeIdMatchAt(url, i)
  {
    if url == "" then ParsedUrl(None, None)
    else ParsedUrl(FileKey(url), NodeId(url))
  }

  // ---------------------------------------------------------------------
  // Facts about the searches

  /** A run that is bounded by a character outside the class (or by the end) is what the greedy run consumes. */
  lemma {:induction false} RunLengthExact(s: string, i: nat, inClass: char -> bool, n: nat)
    requires i + n <= |s|
    requires forall k :: i <= k < i + n ==> inClass(s[k])
    requires i + n == |s| || !inClass(s[i + n])
    ensures RunLength(s, i, inClass) == n
    decreases n
  {
    if n > 0 {
      RunLengthExact(s, i + 1, inClass, n - 1);
    }
  }

  /** A greedy run is unaffected by text in front of it. */
  lemma RunLengthShift(p: string, q: string, i: nat, inClass: char -> bool)
    requires i <= |q|
    ensures RunLength(p + q, |p| + i, inClass) == RunLength(q, i, inClass)
    ensures Run(p + q, |p| + i, inClass) == Run(q, i, inClass)
  {
    var n := RunLength(q, i, inClass);
    var s := p + q;
    forall k | |p| + i <= k < |p| + i + n ensures inClass(s[k]) {
      assert s[k] == q[k - |p|];
    }
    RunLengthExact(s, |p| + i, inClass, n);
    assert s[|p| + i..|p| + i + n] == q[i..i + n];
  }

  /** `re.search` reports the first position where the pattern matches. */
  lemma SearchFindsFirst(s: string, matchesAt: (string, nat) -> bool, i: nat)
    requires i < |s| && matchesAt(s, i)
    requires forall j :: 0 <= j < i ==> !matchesAt(s, j)
    ensures Search(s, 0, matchesAt) == Some(i)
  {
  }

  /** `re.search` reports `None` when the pattern matches nowhere. */
  lemma SearchFindsNothing(s: string, matchesAt: (string, nat) -> bool)
    requires forall j :: 0 <= j < |s| ==> !matchesAt(s, j)
    ensures Search(s, 0, matchesAt) == None
  {
  }

  // ---------------------------------------------------------------------
  // The file key

  /** A key written out at `i`, followed by `/` or by the end, is exactly what `[^/]+` captures there. */
  lemma SegmentRun(s: string, i: nat, key: string, rest: string)
    requires i <= |s| && s[i..] == key + rest
    requires IsSegment(key)
    requires rest == [] || rest[0] == '/'
    ensures RunLength(s, i, NotSlash) == |key| && Run(s, i, NotSlash) == key
  {
    forall k | i <= k < i + |key| ensures NotSlash(s[k]) {
      assert s[k] == s[i..][k - i] == key[k - i];
    }
    assert i + |key| < |s| ==> s[i + |key|] == s[i..][|key|] == rest[0];
    RunLengthExact(s, i, NotSlash, |key|);
    assert s[i..i + |key|] == s[i..][..|key|];
  }

  /** `/design/{key}` written out at `p`, followed by `rest` that starts with `/` or is empty. */
  lemma DesignMatchHere(url: string, p: nat, key: string, rest: string)
    requires p <= |url| && url[p..] == Design + key + rest
    requires IsSegment(key)
    requires rest == [] || rest[0] == '/'
    ensures DesignMatchAt(url, p)
    ensures RunLength(url, p + |Design|, NotSlash) == |key|
    ensures DesignKeyAt(url, p) == key
  {
    assert url[p..p + |Design|] == url[p..][..|Design|] == Design;
    assert url[p + |Design|..] == url[p..][|Design|..] == key + rest;
    SegmentRun(url, p + |Design|, key, rest);
  }

  lemma BranchLiteralHere(url: string, p: nat, key: string, tail: string)
    requires p <= |url| && url[p..] == Design + key + Branch + tail
    ensures StartsWithAt(url, p + |Design| + |key|, Branch)
    ensures url[p + |Design| + |key| + |Branch|..] == tail
  {
    var q := p + |Design| + |key|;
    assert url[q..] == url[p..][|Design| + |key|..] == Branch + tail;
    assert url[q..q + |Branch|] == url[q..][..|Branch|] == Branch;
    assert url[q + |Branch|..] == url[q..][|Branch|..] == tail;
  }

  /** The branch pattern matches at `p` once its pieces are known to be in place. */
  lemma BranchMatchFromParts(url: string, p: nat, n: nat, k: nat)
    requires DesignMatchAt(url, p) && RunLength(url, p + |Design|, NotSlash) == n
    requires k == p + |Design| + n + |Branch| && StartsWithAt(url, k - |Branch|, Branch)
    requires k <= |url| && RunLength(url, k, NotSlash) > 0
    ensures BranchMatchAt(url, p) && BranchKeyAt(url, p) == Run(url, k, NotSlash)
  {
  }

  /** `/design/{key}/branch/{branchKey}` written out at `p`, followed by `post` that starts with `/` or is empty. */
  lemma BranchMatchHere(url: string, p: nat, key: string, branchKey: string, post: string)
    requires p <= |url| && url[p..] == Design + key + Branch + branchKey + post
    requires IsSegment(key) && IsSegment(branchKey)
    requires post == [] || post[0] == '/'
    ensures BranchMatchAt(url, p) && BranchKeyAt(url, p) == branchKey
  {
    var head := Design + key;
    ConcatAssoc(head, Branch, branchKey);
    ConcatAssoc(head, Branch + branchKey, post);
    DesignMatchHere(url, p, key, Branch + branchKey + post);
    ConcatAssoc(head + Branch, branchKey, post);
    BranchLiteralHere(url, p, key, branchKey + post);
    var k := p + |Design| + |key| + |Branch|;
    SegmentRun(url, k, branchKey, post);
    BranchMatchFromParts(url, p, |key|, k);
  }

  /**
   * A branch URL `.../design/{key}/branch/{branchKey}...` yields the branch
   * key, not the file key before it, provided the branch pattern matches
   * nowhere earlier and the branch key is followed by `/` or by nothing.
   * An earlier `/design/` without a branch after it does not stop this.
   */
  lemma BranchKeyWins(pre: string, key: string, branchKey: string, post: string)
    requires IsSegment(key) && IsSegment(branchKey)
    requires post == [] || post[0] == '/'
    requires forall j :: 0 <= j < |pre| ==> !BranchMatchAt(pre + Design + key + Branch + branchKey + post, j)
    ensures ParseFigmaUrl(pre + Design + key + Branch + branchKey + post).fileKey == Some(branchKey)
  {
    var url := pre + Design + key + Branch + branchKey + post;
    assert url[|pre|..] == Design + key + Branch + branchKey + post;
    BranchMatchHere(url, |pre|, key, branchKey, post);
    SearchFindsFirst(url, BranchMatchAt, |pre|);
  }

  /**
   * Without any branch match, the file key is the run after the first
   * design match, up to the next `/` or the end.
   */
  lemma DesignKeyWithoutBranch(pre: string, key: string, post: string)
    requires IsSegment(key)
    requires post == [] || post[0] == '/'
    requires forall j :: 0 <= j < |pre| ==> !DesignMatchAt(pre + Design + key + post, j)
    requires forall j :: 0 <= j < |pre + Design + key + post| ==> !BranchMatchAt(pre + Design + key + post, j)
    ensures ParseFigmaUrl(pre + Design + key + post).fileKey == Some(key)
  {
    var url := pre + Design + key + post;
    assert url[|pre|..] == Design + key + post;
    DesignMatchHere(url, |pre|, key, post);
    SearchFindsNothing(url, BranchMatchAt);
    SearchFindsFirst(url, DesignMatchAt, |pre|);
  }

  /**
   * `[^/]+` does not stop at `?`: when no `/` follows the key, the query
   * string becomes part of the file key.
   */
  lemma QueryJoinsKeyWithoutSlash(pre: string, key: string, query: string)
    requires IsSegment(key) && '/' !in query
    requires forall j :: 0 <= j < |pre| ==> !DesignMatchAt(pre + Design + key + "?" + query, j)
    ensures ParseFigmaUrl(pre + Design + key + "?" + query).fileKey == Some(key + "?" + query)
  {
    var full := key + "?" + query;
    assert pre + Design + key + "?" + query == pre + Design + full + [];
    forall k | 0 <= k < |full| ensures full[k] != '/' {
      if k < |key| { assert full[k] == key[k]; }
      else if k > |key| { assert full[k] == query[k - |key| - 1]; }
    }
    assert pre + Design + key + "?" + query == pre + Design + full;
    NoBranchAfterLastSlash(pre, full);
    DesignKeyWithoutBranch(pre, full, []);
  }

  /** With no design match in `pre` and no `/` after `/design/`, the branch pattern matches nowhere. */
  lemma NoBranchAfterLastSlash(pre: string, full: string)
    requires '/' !in full
    requires forall j :: 0 <= j < |pre| ==> !DesignMatchAt(pre + Design + full, j)
    ensures forall j :: 0 <= j < |pre + Design + full| ==> !BranchMatchAt(pre + Design + full, j)
  {
    var url := pre + Design + full;
    assert url[|pre| + |Design|..] == full;
  }

  // ---------------------------------------------------------------------
  // The node id

  /**
   * The node id comes from the first `node-id=` followed by digits or `-`:
   * it has as many characters as that run, with each `-` turned into `:`.
   */
  lemma NodeIdFromFirstMatch(url: string, i: nat)
    requires NodeIdMatchAt(url, i)
    requires forall j :: 0 <= j < i ==> !NodeIdMatchAt(url, j)
    ensures var value := Run(url, i + |NodeIdParam|, IsNodeIdChar);
      var id := ParseFigmaUrl(url).nodeId;
      && id.Some?
      && |id.value| == |value| > 0
      && forall k :: 0 <= k < |value| ==> id.value[k] == if value[k] == '-' then ':' else value[k]
  {
    SearchFindsFirst(url, NodeIdMatchAt, i);
  }

  /** Shifting a URL right by a prefix shifts its node-id matches with it. */
  lemma NodeIdMatchShift(p: string, q: string, j: nat)
    requires j < |q|
    ensures NodeIdMatchAt(p + q, |p| + j) == NodeIdMatchAt(q, j)
    ensures NodeIdAt(p + q, |p| + j) == NodeIdAt(q, j)
  {
    var s := p + q;
    if j + |NodeIdParam| <= |q| {
      assert s[|p| + j..|p| + j + |NodeIdParam|] == q[j..j + |NodeIdParam|];
      RunLengthShift(p, q, j + |NodeIdParam|, IsNodeIdChar);
    }
  }

  /** The node id of a URL is that of its first node-id match; the empty URL has none either way. */
  lemma ParsedNodeId(url: string)
    ensures ParseFigmaUrl(url).nodeId == NodeId(url)
  {
  }

  /** No `node-id=` can start before a leading `?` of the query string unless an `=` comes first. */
  lemma NoNodeIdMatchInPath(path: string, query: string, j: nat)
    requires '=' !in path
    requires query == [] || query[0] == '?'
    requires j < |path|
    ensures !StartsWithAt(path + query, j, NodeIdParam)
  {
    var url := path + query;
    if j + |NodeIdParam| <= |url| {
      var m := j + |NodeIdParam| - 1;
      if m < |path| {
        assert url[j..j + |NodeIdParam|][|NodeIdParam| - 1] == path[m] != '=';
      } else {
        assert url[j..j + |NodeIdParam|][|path| - j] == query[0] == '?';
      }
    }
  }

  /** With no `=` before a query string that starts with `?`, no node-id match starts in the path. */
  lemma NoNodeIdMatchesInPath(path: string, query: string)
    requires '=' !in path
    requires query == [] || query[0] == '?'
    ensures forall j :: 0 <= j < |path| ==> !NodeIdMatchAt(path + query, j)
  {
    forall j | 0 <= j < |path| ensures !NodeIdMatchAt(path + query, j) {
      NoNodeIdMatchInPath(path, query, j);
    }
  }

  /** After any prefix, the node-id matches and captures are those of the rest, shifted. */
  lemma NodeIdMatchesShifted(path: string, query: string)
    ensures forall j :: |path| <= j < |path| + |query| ==> NodeIdMatchAt(path + query, j) == NodeIdMatchAt(query, j - |path|)
    ensures forall j :: |path| <= j < |path| + |query| ==> NodeIdAt(path + query, j) == NodeIdAt(query, j - |path|)
  {
    forall j | |path| <= j < |path| + |query|
      ensures NodeIdMatchAt(path + query, j) == NodeIdMatchAt(query, j - |path|)
      ensures NodeIdAt(path + query, j) == NodeIdAt(query, j - |path|)
    {
      NodeIdMatchShift(path, query, j - |path|);
    }
  }

  /**
   * When no match starts in a prefix `p` and the matches after it are those
   * of `q` shifted by `|p|`, searching `p + q` finds `q`'s first match, shifted.
   */
  lemma SearchOfConcat(p: string, q: string, matchesAt: (string, nat) -> bool)
    requires forall j :: 0 <= j < |p| ==> !matchesAt(p + q, j)
    requires forall j :: |p| <= j < |p| + |q| ==> matchesAt(p + q, j) == matchesAt(q, j - |p|)
    ensures Search(q, 0, matchesAt).Some? ==> Search(p + q, 0, matchesAt) == Some(|p| + Search(q, 0, matchesAt).value)
    ensures Search(q, 0, matchesAt).None? ==> Search(p + q, 0, matchesAt).None?
  {
    var s := p + q;
    match Search(q, 0, matchesAt)
    case Some(i) =>
      forall j | |p| <= j < |p| + i ensures !matchesAt(s, j) {
        assert !matchesAt(q, j - |p|);
      }
      assert matchesAt(s, |p| + i);
      SearchFindsFirst(s, matchesAt, |p| + i);
    case None =>
      SearchFindsNothing(s, matchesAt);
  }

  /** The capture at the first match of `p + q` is that of `q`, when the matches and captures of `p + q` are those of `q` shifted. */
  lemma FirstCaptureOfConcat(p: string, q: string, matchesAt: (string, nat) -> bool, capture: (string, nat) -> string)
    requires forall j :: 0 <= j < |p| ==> !matchesAt(p + q, j)
    requires forall j :: |p| <= j < |p| + |q| ==> matchesAt(p + q, j) == matchesAt(q, j - |p|)
    requires forall j :: |p| <= j < |p| + |q| ==> capture(p + q, j) == capture(q, j - |p|)
    ensures FirstCapture(p + q, matchesAt, capture) == FirstCapture(q, matchesAt, capture)
  {
    SearchOfConcat(p, q, matchesAt);
    var found := Search(q, 0, matchesAt);
    if found.Some? {
      assert capture(p + q, |p| + found.value) == capture(q, found.value);
    }
  }

  lemma NodeIdOfConcat(path: string, query: string)
    requires '=' !in path
    requires query == [] || query[0] == '?'
    ensures NodeId(path + query) == NodeId(query)
  {
    NoNodeIdMatchesInPath(path, query);
    NodeIdMatchesShifted(path, query);
    FirstCaptureOfConcat(path, query, NodeIdMatchAt, NodeIdAt);
  }

  /**
   * The node id does not depend on the path: with no `=` in the part before
   * the query string, the node id of `path + query` is that of `query` alone.
   */
  lemma NodeIdIgnoresPath(path: string, query: string)
    requires '=' !in path
    requires query == [] || query[0] == '?'
    ensures ParseFigmaUrl(path + query).nodeId == ParseFigmaUrl(query).nodeId
  {
    ParsedNodeId(path + query);
    ParsedNodeId(query);
    NodeIdOfConcat(path, query);
  }

  // ---------------------------------------------------------------------
  // Worked examples

  /** A literal cannot start anywhere its second character does not occur. */
  lemma LiteralNeedsSecondChar(s: string, n: nat, lit: string)
    requires |lit| >= 2 && n <= |s| && lit[1] !in s[..n]
    ensures forall j :: 0 <= j && j + 1 < n ==> !StartsWithAt(s, j, lit)
  {
    forall j | 0 <= j && j + 1 < n ensures !StartsWithAt(s, j, lit) {
      if j + |lit| <= |s| {
        assert s[..n][j + 1] == s[j + 1] == s[j..j + |lit|][1];
      }
    }
  }

  /** No branch match in a URL without the letter `b`. */
  lemma NoBranchMatch(url: string)
    requires 'b' !in url
    ensures forall j :: 0 <= j < |url| ==> !BranchMatchAt(url, j)
  {
    assert url[..|url|] == url;
    LiteralNeedsSecondChar(url, |url|, Branch);
  }

  // The example lemmas take their literals as parameters fixed by the precondition, so the solver does not unfold the functions on them eagerly; this keeps the proofs fast.
  lemma UsageExampleFileKey(pre: string, key: string, post: string)
    requires pre == "https://figma.com" && key == "pqrs" && post == "/ExampleFile" + "?node-id=1-2"
    ensures ParseFigmaUrl(pre + Design + key + post).fileKey == Some(key)
  {
    var url := pre + Design + key + post;
    assert 'b' !in url by {
      assert 'b' !in pre && 'b' !in Design && 'b' !in key && 'b' !in "/ExampleFile" && 'b' !in "?node-id=1-2";
    }
    NoBranchMatch(url);
    assert url[..|pre| + 1] == pre + "/";
    LiteralNeedsSecondChar(url, |pre| + 1, Design);
    DesignKeyWithoutBranch(pre, key, post);
  }

  /** In the query string of the example, `node-id=` is first matched at 1 and captures `1-2`. */
  lemma UsageExampleQueryMatch(query: string)
    requires query == "?node-id=1-2"
    ensures NodeIdMatchAt(query, 1) && !NodeIdMatchAt(query, 0)
    ensures Run(query, 1 + |NodeIdParam|, IsNodeIdChar) == "1-2"
  {
    assert query[1..9] == NodeIdParam;
    assert query[0] != NodeIdParam[0];
    assert query[0..8][0] == query[0];
    RunLengthExact(query, 9, IsNodeIdChar, 3);
    assert query[9..12] == "1-2";
  }

  lemma UsageExampleQuery(query: string)
    requires query == "?node-id=1-2"
    ensures ParseFigmaUrl(query).nodeId == Some("1:2")
  {
    UsageExampleQueryMatch(query);
    NodeIdFromFirstMatch(query, 1);
    var id := ParseFigmaUrl(query).nodeId.value;
    assert id[0] == '1' && id[1] == ':' && id[2] == '2';
    assert id == "1:2";
  }

  lemma UsageExampleNodeId(path: string, query: string)
    requires path == "https://figma.com" + Design + "pqrs" + "/ExampleFile"
    requires query == "?node-id=1-2"
    ensures ParseFigmaUrl(path + query).nodeId == Some("1:2")
  {
    assert '=' !in path by {
      assert '=' !in "https://figma.com" && '=' !in Design && '=' !in "pqrs" && '=' !in "/ExampleFile";
    }
    NodeIdIgnoresPath(path, query);
    UsageExampleQuery(query);
  }

  /** The example of the script's usage text parses to `("pqrs", "1:2")`. */
  lemma UsageExample(url: string)
    requires url == "https://figma.com" + Design + "pqrs" + "/ExampleFile" + "?node-id=1-2"
    ensures ParseFigmaUrl(url) == ParsedUrl(Some("pqrs"), Some("1:2"))
  {
    var pre, key, name, query := "https://figma.com", "pqrs", "/ExampleFile", "?node-id=1-2";
    ConcatAssoc(pre + Design + key, name, query);
    UsageExampleFileKey(pre, key, name + query);
    UsageExampleNodeId(pre + Design + key + name, query);
    ParsedFields(url);
  }

  lemma ParsedFields(url: string)
    ensures ParseFigmaUrl(url) == ParsedUrl(ParseFigmaUrl(url).fileKey, ParseFigmaUrl(url).nodeId)
  {
  }
}
