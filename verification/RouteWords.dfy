/**
 The harvester's meaning spelled out on the text itself: which routes a text declares, in terms of characters and
 concatenation alone, and what the order of the list is.
 */
module RouteWords {
  import opened RouteText
  import opened RouteBlocks
  import opened RouteOrder
  import opened RouteExtract

  // Characters and balance.

  ghost predicate Blank(s: string) {
    forall c | c in s :: c == ' ' || c == '\t' || c == '\n' || c == '\r' || c == '\U{000C}'
  }

  predicate Alphanumeric(c: char) {
    '0' <= c <= '9' || 'A' <= c <= 'Z' || 'a' <= c <= 'z' || c == '_'
  }

  predicate Method(name: string) {
    name == "GET" || name == "POST" || name == "DELETE" || name == "PUT" || name == "PATCH"
  }

  lemma MethodsAre(name: string)
    ensures name in VERBS <==> Method(name)
  {}

  /** The balance of a stretch is its opening braces less its closing ones. */
  lemma {:induction false} BalanceIsCount(text: string, a: nat, b: nat)
    requires a <= b <= |text|
    ensures Balance(text, a, b) == multiset(text[a..b])['{'] as int - multiset(text[a..b])['}'] as int
  {
    if a < b {
      BalanceIsCount(text, a, b - 1);
      assert text[a..b] == text[a..b - 1] + [text[b - 1]];
    }
  }

  /** Braces that nest: never more closed than opened, and all closed at the end. */
  ghost predicate Nested(s: string) {
    && (forall n | 0 <= n <= |s| :: multiset(s[..n])['{'] >= multiset(s[..n])['}'])
    && multiset(s)['{'] == multiset(s)['}']
  }

  lemma PrefixBalance(text: string, b: nat, t: nat, n: nat)
    requires b <= t <= |text| && n <= t - b
    ensures Balance(text, b, b + n) >= 0 <==> multiset(text[b..t][..n])['{'] >= multiset(text[b..t][..n])['}']
    ensures Balance(text, b, b + n) == 0 <==> multiset(text[b..t][..n])['{'] == multiset(text[b..t][..n])['}']
  {
    BalanceIsCount(text, b, b + n);
    assert text[b..t][..n] == text[b..b + n];
  }

  lemma NestedNeverNegative(text: string, b: nat, t: nat)
    requires b <= t <= |text| && Nested(text[b..t])
    ensures NeverNegative(text, b, t)
  {
    forall u | b <= u <= t ensures Balance(text, b, u) >= 0 { PrefixBalance(text, b, t, u - b); }
  }

  lemma NeverNegativeNests(text: string, b: nat, t: nat)
    requires b <= t <= |text| && NeverNegative(text, b, t) && Balance(text, b, t) == 0
    ensures Nested(text[b..t])
  {
    var s := text[b..t];
    assert s[..|s|] == s;
    PrefixBalance(text, b, t, |s|);
    forall n | 0 <= n <= |s| ensures multiset(s[..n])['{'] >= multiset(s[..n])['}'] { PrefixBalance(text, b, t, n); }
  }

  lemma NestedIsBalanced(text: string, b: nat, t: nat)
    requires b <= t <= |text|
    ensures Nested(text[b..t]) <==> NeverNegative(text, b, t) && Balance(text, b, t) == 0
  {
    if Nested(text[b..t]) {
      NestedNeverNegative(text, b, t);
      assert text[b..t][..t - b] == text[b..t];
      PrefixBalance(text, b, t, t - b);
    } else if NeverNegative(text, b, t) && Balance(text, b, t) == 0 {
      NeverNegativeNests(text, b, t);
    }
  }

  // A path key, in words.

  /** `pre`, then a quoted path that starts with a slash, a colon, white space and a brace, then `post`. */
  ghost predicate KeySpelled(text: string, pre: string, path: string, ws: string, post: string) {
    && text == pre + ("'" + (path + ("':" + (ws + ("{" + post)))))
    && path != "" && path[0] == '/' && '\'' !in path && Blank(ws)
  }

  lemma BlankIs(s: string)
    ensures Blank(s) <==> forall u | 0 <= u < |s| :: IsSpace(s[u])
  {
    if Blank(s) {
      forall u | 0 <= u < |s| ensures IsSpace(s[u]) { assert s[u] in s; }
    } else {
      var c :| c in s && !(c == ' ' || c == '\t' || c == '\n' || c == '\r' || c == '\U{000C}');
      var u :| 0 <= u < |s| && s[u] == c;
      assert !IsSpace(s[u]);
    }
  }

  lemma CutOnce(s: string, n: nat, x: string)
    requires n + |x| <= |s| && s[n..n + |x|] == x
    ensures s[n..] == x + s[n + |x|..]
  {}

  lemma QuotedPath(text: string, start: nat, stop: nat)
    requires 0 < start <= stop <= |text| && text[start - 1] == '\''
    ensures text[start - 1..] == "'" + (text[start..stop] + text[stop..])
  {
    CutOnce(text, start - 1, "'");
    CutOnce(text, start, text[start..stop]);
  }

  lemma OpensBlock(text: string, stop: nat, brace: nat)
    requires stop + 2 <= brace < |text| && text[stop] == '\'' && text[stop + 1] == ':' && text[brace] == '{'
    ensures text[stop..] == "':" + (text[stop + 2..brace] + ("{" + text[brace + 1..]))
  {
    assert text[stop..stop + 2] == "':";
    CutOnce(text, stop, "':");
    CutOnce(text, stop + 2, text[stop + 2..brace]);
    CutOnce(text, brace, "{");
  }

  lemma PathIs(text: string, k: Key)
    requires KeyIn(text, k)
    ensures 0 < k.start < k.stop <= |text| && text[k.start - 1] == '\''
    ensures var path := text[k.start..k.stop]; path != "" && path[0] == '/' && '\'' !in path
  {}

  lemma BraceIs(text: string, k: Key)
    requires KeyIn(text, k)
    ensures k.stop + 2 <= k.end - 1 < |text| && Blank(text[k.stop + 2..k.end - 1])
    ensures text[k.stop] == '\'' && text[k.stop + 1] == ':' && text[k.end - 1] == '{'
  {
    BlankIs(text[k.stop + 2..k.end - 1]);
  }

  lemma Assemble(text: string, pre: string, quoted: string, path: string, behind: string, ws: string, post: string)
    requires text == pre + quoted && quoted == "'" + (path + behind) && behind == "':" + (ws + ("{" + post))
    ensures text == pre + ("'" + (path + ("':" + (ws + ("{" + post)))))
  {}

  lemma KeyIsSpelled(text: string, k: Key)
    requires KeyIn(text, k)
    ensures 0 < k.start <= k.stop && k.stop + 2 <= k.end - 1 < |text|
    ensures KeySpelled(text, text[..k.start - 1], text[k.start..k.stop], text[k.stop + 2..k.end - 1], text[k.end..])
  {
    PathIs(text, k);
    BraceIs(text, k);
    var path, ws := text[k.start..k.stop], text[k.stop + 2..k.end - 1];
    QuotedPath(text, k.start, k.stop);
    OpensBlock(text, k.stop, k.end - 1);
    assert text == text[..k.start - 1] + text[k.start - 1..];
    Assemble(text, text[..k.start - 1], text[k.start - 1..], path, text[k.stop..], ws, text[k.end..]);
  }

  /** What stands at `n`, and what is left behind it. */
  lemma Front(text: string, n: nat, x: string, rest: string)
    requires n <= |text| && text[n..] == x + rest
    ensures n + |x| <= |text| && text[n..n + |x|] == x && text[n + |x|..] == rest
  {
    assert text[n..][..|x|] == x && text[n..][|x|..] == rest;
  }

  lemma FrontOfKey(text: string, pre: string, path: string, behind: string)
    requires text == pre + ("'" + (path + behind))
    ensures var n := |pre| + 1;
            && n + |path| <= |text| && text[n - 1..n] == "'"
            && text[n..n + |path|] == path && text[n + |path|..] == behind
  {
    Front(text, 0, pre, "'" + (path + behind));
    Front(text, |pre|, "'", path + behind);
    Front(text, |pre| + 1, path, behind);
  }

  lemma BackOfKey(text: string, n: nat, ws: string, post: string)
    requires n <= |text| && text[n..] == "':" + (ws + ("{" + post))
    ensures var m := n + 2 + |ws|;
            && m + 1 <= |text| && text[n..n + 2] == "':" && text[n + 2..m] == ws
            && text[m..m + 1] == "{" && text[m + 1..] == post
  {
    Front(text, n, "':", ws + ("{" + post));
    Front(text, n + 2, ws, "{" + post);
    Front(text, n + 2 + |ws|, "{", post);
  }

  lemma SpelledIsKey(text: string, pre: string, path: string, ws: string, post: string) returns (k: Key)
    requires KeySpelled(text, pre, path, ws, post)
    ensures KeyIn(text, k) && text[k.start..k.stop] == path && k.end <= |text| && text[k.end..] == post
  {
    k := Key(|pre| + 1, |pre| + 1 + |path|, |pre| + |path| + |ws| + 4);
    FrontOfKey(text, pre, path, "':" + (ws + ("{" + post)));
    BackOfKey(text, k.stop, ws, post);
    BlankIs(ws);
    SpelledKeyParts(text, k, path, ws);
  }

  lemma SpelledKeyParts(text: string, k: Key, path: string, ws: string)
    requires 0 < k.start <= k.stop == k.start + |path| && k.end == k.stop + |ws| + 3 <= |text|
    requires text[k.start - 1..k.start] == "'" && text[k.start..k.stop] == path && text[k.stop..k.stop + 2] == "':"
    requires text[k.stop + 2..k.end - 1] == ws && text[k.end - 1..k.end] == "{"
    requires path != "" && path[0] == '/' && '\'' !in path && forall u | 0 <= u < |ws| :: IsSpace(ws[u])
    ensures KeyIn(text, k)
  {
    assert text[k.start - 1] == text[k.start - 1..k.start][0] && text[k.end - 1] == text[k.end - 1..k.end][0];
    assert text[k.start] == path[0] && text[k.stop] == '\'' && text[k.stop + 1] == ':';
    forall u | k.start <= u < k.stop ensures text[u] != '\'' { assert text[u] == path[u - k.start]; }
    forall u | k.stop + 2 <= u < k.end - 1 ensures IsSpace(text[u]) { assert text[u] == ws[u - k.stop - 2]; }
  }

  // A method directly inside a block, in words.

  /** The block's text: nested text that does not run into a word, the method, white space and a colon. */
  ghost predicate MethodSpelled(block: string, inner: string, name: string, gap: string, post: string) {
    && block == inner + (name + (gap + (":" + post))) && Method(name) && Blank(gap) && Nested(inner)
    && (inner == "" || !Alphanumeric(inner[|inner| - 1]))
  }

  lemma VerbParts(text: string, t: nat, name: string, end: nat)
    requires IsVerb(text, t, name, end)
    ensures t + |name| <= end - 1 < |text| && text[t..t + |name|] == name && text[end - 1] == ':'
    ensures Blank(text[t + |name|..end - 1])
  {
    BlankIs(text[t + |name|..end - 1]);
  }

  lemma ThreeParts(text: string, t: nat, name: string, colon: nat)
    requires t + |name| <= colon < |text| && text[t..t + |name|] == name && text[colon] == ':'
    ensures text[t..] == name + (text[t + |name|..colon] + (":" + text[colon + 1..]))
  {
    CutOnce(text, t, name);
    CutOnce(text, t + |name|, text[t + |name|..colon]);
    CutOnce(text, colon, ":");
  }

  lemma VerbIsSpelled(text: string, t: nat, name: string, end: nat)
    requires IsVerb(text, t, name, end)
    ensures t + |name| <= end - 1 < |text|
    ensures text[t..] == name + (text[t + |name|..end - 1] + (":" + text[end..])) && Blank(text[t + |name|..end - 1])
  {
    VerbParts(text, t, name, end);
    ThreeParts(text, t, name, end - 1);
  }

  lemma MethodIsSpelled(text: string, b: nat, t: nat, name: string) returns (gap: string, post: string)
    requires 0 < b <= |text| && text[b - 1] == '{' && DirectIn(text, b, t, name)
    ensures MethodSpelled(text[b..], text[b..t], name, gap, post)
  {
    var end: nat :| IsVerb(text, t, name, end);
    gap, post := text[t + |name|..end - 1], text[end..];
    VerbIsSpelled(text, t, name, end);
    MethodsAre(name);
    NestedIsBalanced(text, b, t);
    assert text[b..] == text[b..t] + text[t..];
    WordEnds(text, b, t);
  }

  /** The character before a place is the last of what leads up to it. */
  lemma WordEnds(text: string, b: nat, t: nat)
    requires b <= t <= |text|
    ensures b < t ==> text[b..t][t - b - 1] == text[t - 1]
  {}

  lemma SpelledIsVerb(text: string, t: nat, name: string, gap: string, post: string)
    requires t <= |text| && text[t..] == name + (gap + (":" + post)) && name in VERBS && Blank(gap)
    requires t == 0 || !IsWord(text[t - 1])
    ensures HasVerb(text, t, name)
  {
    var end := t + |name| + |gap| + 1;
    BlankIs(gap);
    Front(text, t, name, gap + (":" + post));
    Front(text, t + |name|, gap, ":" + post);
    Front(text, end - 1, ":", post);
    assert text[end - 1..end][0] == text[end - 1];
    forall u | t + |name| <= u < end - 1 ensures IsSpace(text[u]) {
      assert text[u] == text[t + |name|..end - 1][u - t - |name|];
    }
    assert IsVerb(text, t, name, end);
  }

  lemma SpelledIsMethod(text: string, b: nat, inner: string, name: string, gap: string, post: string)
    requires 0 < b <= |text| && text[b - 1] == '{' && MethodSpelled(text[b..], inner, name, gap, post)
    ensures DirectIn(text, b, b + |inner|, name)
  {
    var t := b + |inner|;
    MethodsAre(name);
    Front(text, b, inner, name + (gap + (":" + post)));
    MethodNotEmpty(name, gap + (":" + post), text[t..]);
    NestedIsBalanced(text, b, t);
    WordEnds(text, b, t);
    SpelledIsVerb(text, t, name, gap, post);
  }

  lemma MethodNotEmpty(name: string, rest: string, all: string)
    requires Method(name) && all == name + rest
    ensures |all| >= 3
  {}

  /** The whole text of a declaration. */
  ghost predicate Spelled(
    text: string, r: Route, pre: string, ws: string, block: string, inner: string, gap: string, post: string)
  {
    KeySpelled(text, pre, r.path, ws, block) && MethodSpelled(block, inner, r.verb, gap, post)
  }

  lemma KeyHasBrace(text: string, k: Key)
    requires KeyIn(text, k)
    ensures 0 < k.end <= |text| && text[k.end - 1] == '{'
  {}

  lemma DeclaredIsSpelled(text: string, r: Route)
    returns (pre: string, ws: string, block: string, inner: string, gap: string, post: string)
    requires Declares(text, r)
    ensures Spelled(text, r, pre, ws, block, inner, gap, post)
  {
    var k :| KeyIn(text, k) && DeclaredBy(text, k, r);
    var t: nat :| DirectIn(text, k.end, t, r.verb);
    KeyIsSpelled(text, k);
    KeyHasBrace(text, k);
    gap, post := MethodIsSpelled(text, k.end, t, r.verb);
    pre, ws := text[..k.start - 1], text[k.stop + 2..k.end - 1];
    block, inner := text[k.end..], text[k.end..t];
  }

  lemma SpelledIsDeclared(
    text: string, r: Route, pre: string, ws: string, block: string, inner: string, gap: string, post: string)
    requires Spelled(text, r, pre, ws, block, inner, gap, post)
    ensures Declares(text, r)
  {
    var k := SpelledIsKey(text, pre, r.path, ws, block);
    KeyHasBrace(text, k);
    SpelledIsMethod(text, k.end, inner, r.verb, gap, post);
    assert DeclaredBy(text, k, r);
  }

  ghost predicate SpelledSomewhere(text: string, r: Route) {
    exists pre, ws, block, inner, gap, post :: Spelled(text, r, pre, ws, block, inner, gap, post)
  }

  /**
   A text declares a route exactly if it reads, somewhere: a quote, the path, a quote and a colon, white space, an
   opening brace, text whose braces nest, the method at a word's start, white space and a colon.
   */
  lemma DeclaresInWords(text: string, r: Route)
    ensures Declares(text, r) <==> SpelledSomewhere(text, r)
  {
    if Declares(text, r) {
      var pre, ws, block, inner, gap, post := DeclaredIsSpelled(text, r);
    }
    if pre, ws, block, inner, gap, post :| Spelled(text, r, pre, ws, block, inner, gap, post) {
      SpelledIsDeclared(text, r, pre, ws, block, inner, gap, post);
    }
  }

  // The order of the list, in words.

  /** `a` comes before `b`: it is a proper prefix, or smaller at the first character that differs. */
  ghost predicate Before(a: string, b: string) {
    exists n: nat :: n <= |a| && n <= |b| && a[..n] == b[..n] && n < |b| && (n == |a| || a[n] < b[n])
  }

  lemma {:induction false} StringLessInWords(a: string, b: string)
    ensures StringLess(a, b) <==> Before(a, b)
  {
    if a == [] || b == [] || a[0] != b[0] {
      if StringLess(a, b) { assert a[..0] == b[..0] && 0 < |b|; }
      forall n: nat | 0 < n <= |a| && n <= |b| ensures a[..n] != b[..n] {
        assert a[..n][0] == a[0] && b[..n][0] == b[0];
      }
    } else {
      StringLessInWords(a[1..], b[1..]);
      BeforeTail(a, b);
    }
  }

  lemma BeforeTail(a: string, b: string)
    requires a != [] && b != [] && a[0] == b[0]
    ensures Before(a, b) <==> Before(a[1..], b[1..])
  {
    if n: nat :| n <= |a| && n <= |b| && a[..n] == b[..n] && n < |b| && (n == |a| || a[n] < b[n]) {
      assert n > 0;
      assert a[1..][..n - 1] == a[..n][1..] == b[..n][1..] == b[1..][..n - 1];
      assert n - 1 < |b[1..]| && (n - 1 == |a[1..]| || a[1..][n - 1] < b[1..][n - 1]);
    }
    if n: nat :| n <= |a[1..]| && n <= |b[1..]| && a[1..][..n] == b[1..][..n] && n < |b[1..]|
                 && (n == |a[1..]| || a[1..][n] < b[1..][n]) {
      assert a[..n + 1] == [a[0]] + a[1..][..n] && b[..n + 1] == [b[0]] + b[1..][..n];
      assert n + 1 < |b| && (n + 1 == |a| || a[n + 1] < b[n + 1]);
    }
  }

  /** By method first, and by path within a method. */
  lemma LessInWords(a: Route, b: Route)
    ensures Less(a, b) <==> Before(a.verb, b.verb) || (a.verb == b.verb && Before(a.path, b.path))
  {
    StringLessInWords(a.verb, b.verb);
    StringLessInWords(a.path, b.path);
    StringIrreflexive(a.verb);
  }

  /** So the list goes method by method, and path by path within each. */
  lemma ListInWords(routes: seq<Route>, i: nat, j: nat)
    requires StrictlySorted(routes) && i < j < |routes|
    ensures Before(routes[i].verb, routes[j].verb)
            || (routes[i].verb == routes[j].verb && Before(routes[i].path, routes[j].path))
  {
    LessInWords(routes[i], routes[j]);
  }

  /** DELETE /z comes before GET /a. */
  lemma MethodBeforePath()
    ensures Less(Route("DELETE", "/z"), Route("GET", "/a")) && !Less(Route("GET", "/a"), Route("DELETE", "/z"))
  {}
}
