/**
 The extraction of routes from the text of a route map, against its declarative meaning.
 */
module RouteExtract {
  import opened Wrappers
  import opened RouteText
  import opened RouteBlocks
  import opened RouteOrder

  ghost predicate HasVerb(text: string, t: nat, name: string) {
    exists end: nat :: IsVerb(text, t, name, end)
  }

  lemma VerbTokenIsThePattern(text: string, t: nat, name: string)
    requires t < |text|
    ensures HasVerb(text, t, name) <==> TokenAt(text, t).Some? && TokenAt(text, t).value.token == Verb(name)
  {
    if HasVerb(text, t, name) {
      var end: nat :| IsVerb(text, t, name, end);
      VerbEndIsThePattern(text, t, name, end);
      LettersOnly(name, 0);
      assert text[t..t + |name|][0] == text[t];
    } else if TokenAt(text, t).Some? && TokenAt(text, t).value.token == Verb(name) {
      VerbEndIsThePattern(text, t, name, TokenAt(text, t).value.end);
    }
  }

  /**
   `name` is a method at `t`, directly inside the block that begins at `b`: no brace between leaves a nested
   block open or closes the block.
   */
  ghost predicate DirectIn(text: string, b: nat, t: nat, name: string) {
    b <= t < |text| && NeverNegative(text, b, t) && Balance(text, b, t) == 0 && HasVerb(text, t, name)
  }

  ghost predicate DirectSomewhere(text: string, b: nat, name: string) {
    exists t: nat :: DirectIn(text, b, t, name)
  }

  ghost predicate DeclaredBy(text: string, k: Key, r: Route) {
    k.start <= k.stop < k.end <= |text| && text[k.start..k.stop] == r.path && DirectSomewhere(text, k.end, r.verb)
  }

  ghost predicate KeyIn(text: string, k: Key) {
    k.start > 0 && IsKey(text, k.start - 1, k)
  }

  /**
   What the extractor is to find: the methods directly inside the block of some path key, wherever that key
   stands.
   */
  ghost predicate Declares(text: string, r: Route) {
    exists k :: KeyIn(text, k) && DeclaredBy(text, k, r)
  }

  // A window of a text sees the same methods as the text, if it ends where the text does or at a brace.

  ghost predicate Window(part: string, text: string, off: nat) {
    && off + |part| <= |text| && part == text[off..off + |part|]
    && (off + |part| == |text| || (part != [] && part[|part| - 1] == '}'))
    && (off == 0 || !IsWord(text[off - 1]))
  }

  lemma PatternShifts(part: string, text: string, off: nat, t: nat, name: string, end: nat)
    requires Window(part, text, off) && t < |part| && end <= |part|
    ensures IsVerb(part, t, name, end) <==> IsVerb(text, off + t, name, off + end)
  {
    assert forall u | 0 <= u < |part| :: part[u] == text[off + u];
    if t + |name| <= |part| { assert text[off + t..off + t + |name|] == part[t..t + |name|]; }
  }

  lemma VerbInWindow(part: string, text: string, off: nat, t: nat, name: string)
    requires Window(part, text, off) && t < |part|
    ensures HasVerb(part, t, name) <==> HasVerb(text, off + t, name)
  {
    if HasVerb(part, t, name) {
      var end: nat :| IsVerb(part, t, name, end);
      PatternShifts(part, text, off, t, name, end);
    } else if HasVerb(text, off + t, name) {
      var end: nat :| IsVerb(text, off + t, name, end);
      VerbStaysInWindow(part, text, off, t, name, end);
      PatternShifts(part, text, off, t, name, end - off);
    }
  }

  /** A method token cannot reach past a closing brace. */
  lemma VerbStaysInWindow(part: string, text: string, off: nat, t: nat, name: string, end: nat)
    requires Window(part, text, off) && t < |part| && IsVerb(text, off + t, name, end)
    ensures end <= off + |part|
  {
    var c := off + |part| - 1;
    if end > off + |part| {
      assert text[c] == '}';
      if c < off + t + |name| {
        assert text[off + t..off + t + |name|][c - off - t] == name[c - off - t];
        LettersOnly(name, c - off - t);
      }
      assert false;
    }
  }

  lemma {:induction false} BalanceInWindow(part: string, text: string, off: nat, a: nat, b: nat)
    requires off + |part| <= |text| && part == text[off..off + |part|] && a <= b <= |part|
    ensures Balance(part, a, b) == Balance(text, off + a, off + b)
  {
    if a < b { BalanceInWindow(part, text, off, a, b - 1); }
  }

  /**
   Within a block that ends at `e`, the depth of the filtered scan and the raw balance agree, and nothing
   beyond is direct.
   */
  lemma BlockDirect(text: string, b: nat, e: nat, name: string)
    requires 0 < b <= |text| && text[b - 1] == '{' && IsBlockEnd(text, b, e)
    ensures DirectBefore(text[b..e], e - b, name) <==> DirectSomewhere(text, b, name)
  {
    var block := text[b..e];
    forall t | 0 <= t < |block| ensures DirectAt(block, t, name) <==> DirectIn(text, b, b + t, name) {
      DirectInBlock(text, b, e, t, name);
    }
    if t: nat :| DirectIn(text, b, t, name) {
      if Closed(text, b, e) { assert Balance(text, b, e) == -1; }
      assert t < e;
      assert DirectAt(block, t - b, name);
    }
    if DirectBefore(block, e - b, name) {
      var t :| 0 <= t < e - b && DirectAt(block, t, name);
      assert DirectIn(text, b, b + t, name);
    }
  }

  lemma DirectInBlock(text: string, b: nat, e: nat, t: nat, name: string)
    requires 0 < b <= |text| && text[b - 1] == '{' && IsBlockEnd(text, b, e) && b + t < e
    ensures DirectAt(text[b..e], t, name) <==> DirectIn(text, b, b + t, name)
  {
    var block := text[b..e];
    BalanceInBlock(text, b, e, t);
    assert Window(block, text, b) by {
      if Closed(text, b, e) {
        assert Balance(text, b, e) == Balance(text, b, e - 1) + Weight(text[e - 1]);
        assert block[|block| - 1] == text[e - 1];
      }
    }
    VerbInWindow(block, text, b, t, name);
    assert NeverNegative(text, b, b + t);
    VerbTokenIsThePattern(block, t, name);
  }

  function Depth(tokens: seq<Spot>): int {
    if tokens == [] then 0 else Depth(tokens[..|tokens| - 1]) + Turn(tokens[|tokens| - 1].found.token)
  }

  lemma {:induction false} DepthPrepends(a: Spot, rest: seq<Spot>)
    ensures Depth([a] + rest) == Turn(a.found.token) + Depth(rest)
  {
    if rest != [] {
      DepthPrepends(a, rest[..|rest| - 1]);
      assert ([a] + rest)[..|rest|] == [a] + rest[..|rest| - 1];
    }
  }

  lemma {:induction false} FilteredDepth(block: string, i: nat, j: nat)
    requires i <= |block| && j < |FindTokens(block, i)|
    ensures i <= FindTokens(block, i)[j].start < |block|
    ensures Balance(block, 0, FindTokens(block, i)[j].start) == Balance(block, 0, i) + Depth(FindTokens(block, i)[..j])
    decreases j
  {
    var n := NextToken(block, i);
    NoTokenBefore(block, i);
    var f := TokenAt(block, n).value;
    TokenBalance(block, i, n, f);
    if j > 0 {
      var rest := FindTokens(block, f.end);
      FilteredDepth(block, f.end, j - 1);
      DepthPrepends(Spot(n, f), rest[..j - 1]);
      assert FindTokens(block, i)[..j] == [Spot(n, f)] + rest[..j - 1];
    }
  }

  /** The place of a token of a block, and the balance there. */
  lemma TokenPlace(block: string, tokens: seq<Spot>, j: nat) returns (start: nat, depth: int)
    requires tokens == FindTokens(block, 0) && j < |tokens|
    ensures start == tokens[j].start < |block|
    ensures depth == Depth(tokens[..j]) == Balance(block, 0, start)
  {
    start, depth := tokens[j].start, Depth(tokens[..j]);
    FilteredDepth(block, 0, j);
  }

  /**
   The running depth over the filtered tokens of a block is, at every token, the raw brace balance of the
   text since the block began, and it is never negative there.
   */
  lemma FilteredDepthAgrees(text: string, b: nat, e: nat, block: string, tokens: seq<Spot>, j: nat)
    returns (start: nat)
    requires b <= |text| && IsBlockEnd(text, b, e) && block == text[b..e]
    requires tokens == FindTokens(block, 0) && j < |tokens|
    ensures start == tokens[j].start < |block|
    ensures Depth(tokens[..j]) == Balance(text, b, b + start) >= 0
  {
    var depth;
    start, depth := TokenPlace(block, tokens, j);
    DepthInBlock(text, b, e, block, start, depth);
  }

  lemma DepthInBlock(text: string, b: nat, e: nat, block: string, start: nat, depth: int)
    requires b <= |text| && IsBlockEnd(text, b, e) && block == text[b..e] && start < |block|
    requires depth == Balance(block, 0, start)
    ensures b + start <= |text| && depth == Balance(text, b, b + start) >= 0
  {
    BalanceInBlock(text, b, e, start);
  }

  lemma BalanceInBlock(text: string, b: nat, e: nat, t: nat)
    requires b <= |text| && IsBlockEnd(text, b, e) && b + t < e
    ensures Balance(text[b..e], 0, t) == Balance(text, b, b + t) >= 0
  {
    BalanceInWindow(text[b..e], text, b, 0, t);
    assert NeverNegative(text, b, b + t);
  }

  /** One key's contribution. */
  method BlockRoutes(text: string, k: Key) returns (found: set<Route>)
    requires KeyIn(text, k)
    ensures forall r :: r in found <==> DeclaredBy(text, k, r)
  {
    var path := text[k.start..k.stop];
    var e := ScanBlock(text, k.end);
    var names := DirectVerbs(text[k.end..e]);
    found := set name | name in names :: Route(name, path);
    forall r ensures r in found <==> DeclaredBy(text, k, r) {
      BlockDirect(text, k.end, e, r.verb);
      assert r in found <==> r.verb in names && r.path == path;
    }
  }

  ghost predicate DeclaredByOne(text: string, keys: seq<Key>, r: Route) {
    exists j | 0 <= j < |keys| :: DeclaredBy(text, keys[j], r)
  }

  lemma OneMore(text: string, keys: seq<Key>, k: Key, r: Route)
    ensures DeclaredByOne(text, keys + [k], r) <==> DeclaredByOne(text, keys, r) || DeclaredBy(text, k, r)
  {
    assert (keys + [k])[|keys|] == k;
    if j :| 0 <= j < |keys| && DeclaredBy(text, keys[j], r) { assert (keys + [k])[j] == keys[j]; }
  }

  lemma KeysAreFound(text: string, k: Key)
    ensures k in FindKeys(text, 0) <==> KeyIn(text, k)
  {
    FindKeysFindsAll(text, 0, k);
    if k.start > 0 { KeyAtIsThePattern(text, k.start - 1, k); }
  }

  lemma KeysDeclare(text: string, keys: seq<Key>, r: Route)
    requires forall k :: k in keys <==> KeyIn(text, k)
    ensures Declares(text, r) <==> DeclaredByOne(text, keys, r)
  {
    if Declares(text, r) {
      var k :| KeyIn(text, k) && DeclaredBy(text, k, r);
      assert k in keys;
    }
    if j :| 0 <= j < |keys| && DeclaredBy(text, keys[j], r) {
      assert keys[j] in keys;
    }
  }

  /** The routes seen after the blocks of some keys. */
  ghost predicate Seen(text: string, keys: seq<Key>, seen: set<Route>) {
    forall r :: r in seen <==> DeclaredByOne(text, keys, r)
  }

  lemma SeenGrows(text: string, keys: seq<Key>, i: nat, seen: set<Route>, found: set<Route>)
    requires i < |keys| && Seen(text, keys[..i], seen) && forall r :: r in found <==> DeclaredBy(text, keys[i], r)
    ensures Seen(text, keys[..i + 1], seen + found)
  {
    assert keys[..i + 1] == keys[..i] + [keys[i]];
    forall r ensures r in seen + found <==> DeclaredByOne(text, keys[..i + 1], r) {
      OneMore(text, keys[..i], keys[i], r);
    }
  }

  lemma KeysFound(text: string) returns (keys: seq<Key>)
    ensures keys == FindKeys(text, 0)
    ensures forall i | 0 <= i < |keys| :: KeyIn(text, keys[i])
    ensures forall r :: Declares(text, r) <==> DeclaredByOne(text, keys, r)
  {
    keys := FindKeys(text, 0);
    forall k ensures k in keys <==> KeyIn(text, k) { KeysAreFound(text, k); }
    forall r ensures Declares(text, r) <==> DeclaredByOne(text, keys, r) { KeysDeclare(text, keys, r); }
  }

  /**
   Every route the text declares, each once, in increasing order of method and path; the set of
   routes seen is emptied into the slice in whatever order its iteration yields, and sorted there.
   */
  method ExtractRoutes(text: string) returns (routes: seq<Route>)
    ensures StrictlySorted(routes)
    ensures forall r :: r in routes <==> Declares(text, r)
  {
    var keys := FindKeys(text, 0);
    var seen: set<Route> := {};
    ghost var all := KeysFound(text);
    for i := 0 to |keys|
      invariant Seen(text, keys[..i], seen)
    {
      var found := BlockRoutes(text, keys[i]);
      SeenGrows(text, keys, i, seen, found);
      seen := seen + found;
    }
    assert keys[..|keys|] == keys;
    routes := SortedList(seen);
  }

  method SortedList(seen: set<Route>) returns (routes: seq<Route>)
    ensures StrictlySorted(routes)
    ensures forall r :: r in routes <==> r in seen
  {
    routes := [];
    var todo := seen;
    while todo != {}
      invariant todo <= seen && Distinct(routes)
      invariant forall r :: r in routes <==> r in seen && r !in todo
      decreases |todo|
    {
      var r := Any(todo);
      routes := routes + [r];
      todo := todo - {r};
    }
    var a := new Route[|routes|](i requires 0 <= i < |routes| => routes[i]);
    assert a[..] == routes;
    SortRoutes(a);
    forall r ensures r in a[..] <==> r in routes {
      assert r in a[..] <==> r in multiset(a[..]);
      assert r in routes <==> r in multiset(routes);
    }
    routes := a[..];
  }
}
