/**
 Harvesting several files as one text: each file followed by a newline.
 */
module RouteJoin {
  import opened RouteText
  import opened RouteBlocks
  import opened RouteOrder
  import opened RouteExtract

  function Join(files: seq<string>): string {
    if files == [] then "" else files[0] + "\n" + Join(files[1..])
  }

  /** A path key starts at `p`, and its path is not closed in the file. */
  predicate PathCut(f: string, p: nat) {
    p + 1 < |f| && f[p] == '\'' && f[p + 1] == '/' && NextQuote(f, p + 1) == |f|
  }

  /** A path key starts at `p`, and the file ends in the white space before its brace. */
  predicate KeyCut(f: string, p: nat) {
    && p + 1 < |f| && f[p] == '\'' && f[p + 1] == '/'
    && var q := NextQuote(f, p + 1);
       q + 1 < |f| && f[q + 1] == ':' && SkipSpaces(f, q + 2) == |f|
  }

  /** The key pattern, tried at `p`, runs off the end of the file while it could still match. */
  predicate Undecided(f: string, p: nat) {
    PathCut(f, p) || KeyCut(f, p)
  }

  ghost predicate Closes(f: string, b: nat)
    requires b <= |f|
  {
    exists e :: Closed(f, b, e)
  }

  /** Nothing that follows the file can add to what this key declares: its block is closed, or it has every method. */
  ghost predicate KeySettled(f: string, k: Key)
    requires k.end <= |f|
  {
    Closes(f, k.end) || forall v | v in VERBS :: DirectSomewhere(f, k.end, v)
  }

  ghost predicate AllSettled(f: string) {
    forall k | KeyIn(f, k) :: KeySettled(f, k)
  }

  /** No path key of `f + rest` begins in `f` and ends beyond it. */
  ghost predicate Apart(f: string, rest: string) {
    forall k | KeyIn(f + rest, k) && k.start <= |f| :: k.end <= |f|
  }

  /** Every key is settled in its own file, and no key of the joined text straddles a boundary. */
  ghost predicate Separate(files: seq<string>) {
    files == [] || (AllSettled(files[0]) && Apart(files[0], "\n" + Join(files[1..])) && Separate(files[1..]))
  }

  /** A condition on one file alone: no path key is cut off by its end, and every key is settled. */
  ghost predicate SelfContained(f: string) {
    (forall p | 0 <= p < |f| :: !Undecided(f, p)) && AllSettled(f)
  }

  /** Such files are separate in whatever number and order they come. */
  lemma {:induction false} SelfContainedIsSeparate(files: seq<string>)
    requires forall f | f in files :: SelfContained(f)
    ensures Separate(files)
  {
    if files != [] {
      var f, rest := files[0], "\n" + Join(files[1..]);
      assert rest[0] == '\n' && f in files;
      assert Apart(f, rest) by { StaysApart(f, rest); }
      SelfContainedIsSeparate(files[1..]);
    }
  }

  lemma StaysApart(f: string, rest: string)
    requires SelfContained(f) && rest != [] && rest[0] == '\n'
    ensures Apart(f, rest)
  {
    forall k | KeyIn(f + rest, k) && k.start <= |f| ensures k.end <= |f| { KeyEndsInside(f, rest, k); }
  }

  lemma KeyEndsInside(f: string, rest: string, k: Key)
    requires rest != [] && rest[0] == '\n' && KeyIn(f + rest, k) && k.start <= |f| && !Undecided(f, k.start - 1)
    ensures k.end <= |f|
  {
    KeyAtIsThePattern(f + rest, k.start - 1, k);
    KeyExtends(f, rest, k.start - 1);
  }

  // The first file of a joined text.

  lemma QuoteExtends(f: string, rest: string, i: nat)
    requires i <= |f|
    ensures NextQuote(f, i) < |f| ==> NextQuote(f + rest, i) == NextQuote(f, i)
    ensures NextQuote(f, i) == |f| ==> NextQuote(f + rest, i) >= |f|
  {
    var j, l := NextQuote(f, i), NextQuote(f + rest, i);
    assert forall u | 0 <= u < |f| :: (f + rest)[u] == f[u];
  }

  lemma SpacesExtend(f: string, rest: string, i: nat)
    requires i <= |f|
    ensures SkipSpaces(f, i) < |f| ==> SkipSpaces(f + rest, i) == SkipSpaces(f, i)
  {
    assert forall u | 0 <= u < |f| :: (f + rest)[u] == f[u];
  }

  lemma KeyExtends(f: string, rest: string, p: nat)
    requires p < |f| && !Undecided(f, p) && rest != [] && rest[0] == '\n'
    ensures KeyAt(f + rest, p) == KeyAt(f, p)
  {
    var text := f + rest;
    assert forall u | 0 <= u < |f| :: text[u] == f[u];
    assert text[|f|] == '\n';
    if p + 1 < |f| && f[p] == '\'' && f[p + 1] == '/' {
      QuoteExtends(f, rest, p + 1);
      var q := NextQuote(f, p + 1);
      if q + 1 < |f| && f[q + 1] == ':' { SpacesExtend(f, rest, q + 2); }
    }
  }

  lemma KeyStays(f: string, rest: string, k: Key)
    requires k.end <= |f|
    ensures KeyIn(f + rest, k) <==> KeyIn(f, k)
  {
    assert forall u | 0 <= u < |f| :: (f + rest)[u] == f[u];
  }

  lemma {:induction false} BalanceExtends(f: string, rest: string, a: nat, b: nat)
    requires a <= b <= |f|
    ensures Balance(f + rest, a, b) == Balance(f, a, b)
  {
    if a < b { BalanceExtends(f, rest, a, b - 1); }
  }

  /** The methods directly in a block that closes in `f` are the same however the text goes on. */
  lemma DirectExtends(f: string, rest: string, b: nat, e: nat, t: nat, name: string)
    requires b <= |f| && Closed(f, b, e)
    ensures DirectIn(f + rest, b, t, name) <==> DirectIn(f, b, t, name)
  {
    var text := f + rest;
    forall u | b <= u <= |f| ensures Balance(text, b, u) == Balance(f, b, u) { BalanceExtends(f, rest, b, u); }
    assert Balance(f, b, e) == -1 && Balance(text, b, e) == -1;
    if t < e {
      assert Balance(f, b, e) == Balance(f, b, e - 1) + Weight(f[e - 1]);
      var part := f[..e];
      assert part == f[0..0 + e] && part == text[0..0 + e] && part[|part| - 1] == '}';
      VerbInWindow(part, f, 0, t, name);
      VerbInWindow(part, text, 0, t, name);
    }
  }

  lemma VerbStays(f: string, rest: string, t: nat, name: string)
    requires HasVerb(f, t, name)
    ensures HasVerb(f + rest, t, name)
  {
    var end: nat :| IsVerb(f, t, name, end);
    assert (f + rest)[t..t + |name|] == f[t..t + |name|];
    assert IsVerb(f + rest, t, name, end);
  }

  lemma DirectStays(f: string, rest: string, b: nat, t: nat, name: string)
    requires DirectIn(f, b, t, name)
    ensures DirectIn(f + rest, b, t, name)
  {
    forall u | b <= u <= t ensures Balance(f + rest, b, u) == Balance(f, b, u) { BalanceExtends(f, rest, b, u); }
    VerbStays(f, rest, t, name);
  }

  /** What a key declares in a file, it declares in every text that begins with the file. */
  lemma DeclaredStays(f: string, rest: string, k: Key, r: Route)
    requires DeclaredBy(f, k, r)
    ensures DeclaredBy(f + rest, k, r)
  {
    var t: nat :| DirectIn(f, k.end, t, r.verb);
    DirectStays(f, rest, k.end, t, r.verb);
    assert (f + rest)[k.start..k.stop] == f[k.start..k.stop];
  }

  lemma ClosedExtends(f: string, rest: string, b: nat, name: string)
    requires b <= |f| && Closes(f, b)
    ensures DirectSomewhere(f + rest, b, name) <==> DirectSomewhere(f, b, name)
  {
    var e :| Closed(f, b, e);
    forall t: nat ensures DirectIn(f + rest, b, t, name) <==> DirectIn(f, b, t, name) {
      DirectExtends(f, rest, b, e, t, name);
    }
  }

  lemma DirectIsMethod(text: string, b: nat, name: string)
    requires DirectSomewhere(text, b, name)
    ensures name in VERBS
  {}

  /** Which a settled key neither gains nor loses by what follows. */
  lemma DeclaredExtends(f: string, rest: string, k: Key, r: Route)
    requires KeyIn(f, k) && KeySettled(f, k)
    ensures DeclaredBy(f + rest, k, r) <==> DeclaredBy(f, k, r)
  {
    if DeclaredBy(f, k, r) {
      DeclaredStays(f, rest, k, r);
    } else if DeclaredBy(f + rest, k, r) {
      assert (f + rest)[k.start..k.stop] == f[k.start..k.stop];
      DirectIsMethod(f + rest, k.end, r.verb);
      if Closes(f, k.end) { ClosedExtends(f, rest, k.end, r.verb); }
    }
  }

  // The files behind it.

  function Shift(k: Key, n: nat): Key {
    Key(k.start + n, k.stop + n, k.end + n)
  }

  lemma KeyShiftsOut(pre: string, g: string, p: nat, k: Key)
    requires IsKey(g, p, k)
    ensures IsKey(pre + g, |pre| + p, Shift(k, |pre|))
  {
    assert forall u | |pre| <= u < |pre + g| :: (pre + g)[u] == g[u - |pre|];
  }

  lemma KeyShiftsIn(pre: string, g: string, p: nat, k: Key)
    requires IsKey(pre + g, |pre| + p, Shift(k, |pre|))
    ensures IsKey(g, p, k)
  {
    assert forall u | 0 <= u < |g| :: g[u] == (pre + g)[|pre| + u];
  }

  lemma KeyInShifts(pre: string, g: string, k: Key)
    requires k.start > 0
    ensures KeyIn(pre + g, Shift(k, |pre|)) <==> KeyIn(g, k)
  {
    if KeyIn(g, k) {
      KeyShiftsOut(pre, g, k.start - 1, k);
    } else if KeyIn(pre + g, Shift(k, |pre|)) {
      KeyShiftsIn(pre, g, k.start - 1, k);
    }
  }

  lemma NeverNegativeShifts(pre: string, g: string, b: nat, t: nat)
    requires b <= t <= |g|
    ensures Balance(pre + g, |pre| + b, |pre| + t) == Balance(g, b, t)
    ensures NeverNegative(pre + g, |pre| + b, |pre| + t) <==> NeverNegative(g, b, t)
  {
    var text, n, nb := pre + g, |pre|, |pre| + b;
    assert g == text[n..n + |g|];
    forall v | nb <= v <= n + t ensures Balance(text, nb, v) < 0 ==> !NeverNegative(g, b, t) {
      BalanceInWindow(g, text, n, b, v - n);
    }
    forall u | b <= u <= t ensures Balance(g, b, u) < 0 ==> !NeverNegative(text, nb, n + t) {
      BalanceInWindow(g, text, n, b, u);
    }
    BalanceInWindow(g, text, n, b, t);
  }

  lemma VerbShifts(pre: string, g: string, t: nat, name: string)
    requires pre != [] && pre[|pre| - 1] == '\n' && t < |g|
    ensures HasVerb(pre + g, |pre| + t, name) <==> HasVerb(g, t, name)
  {
    assert g == (pre + g)[|pre|..|pre| + |g|];
    VerbInWindow(g, pre + g, |pre|, t, name);
  }

  lemma DirectShifts(pre: string, g: string, b: nat, t: nat, name: string)
    requires pre != [] && pre[|pre| - 1] == '\n' && b <= |g|
    ensures DirectIn(pre + g, |pre| + b, |pre| + t, name) <==> DirectIn(g, b, t, name)
  {
    if b <= t < |g| {
      NeverNegativeShifts(pre, g, b, t);
      VerbShifts(pre, g, t, name);
    }
  }

  lemma SomewhereShifts(pre: string, g: string, b: nat, name: string)
    requires pre != [] && pre[|pre| - 1] == '\n' && b <= |g|
    ensures DirectSomewhere(pre + g, |pre| + b, name) <==> DirectSomewhere(g, b, name)
  {
    if DirectSomewhere(pre + g, |pre| + b, name) {
      var t: nat :| DirectIn(pre + g, |pre| + b, t, name);
      DirectShifts(pre, g, b, t - |pre|, name);
    }
    if DirectSomewhere(g, b, name) {
      var t: nat :| DirectIn(g, b, t, name);
      DirectShifts(pre, g, b, t, name);
    }
  }

  lemma DeclaredShifts(pre: string, g: string, k: Key, r: Route)
    requires pre != [] && pre[|pre| - 1] == '\n' && k.start <= k.stop < k.end <= |g|
    ensures DeclaredBy(pre + g, Shift(k, |pre|), r) <==> DeclaredBy(g, k, r)
  {
    var text, n := pre + g, |pre|;
    assert text[n + k.start..n + k.stop] == g[k.start..k.stop];
    SomewhereShifts(pre, g, k.end, r.verb);
  }

  // Two files, then any number.

  lemma DeclaresFirst(f: string, rest: string, r: Route)
    requires Declares(f, r)
    ensures Declares(f + rest, r)
  {
    var k :| KeyIn(f, k) && DeclaredBy(f, k, r);
    KeyStays(f, rest, k);
    DeclaredStays(f, rest, k, r);
  }

  lemma DeclaresRest(pre: string, g: string, r: Route)
    requires pre != [] && pre[|pre| - 1] == '\n' && Declares(g, r)
    ensures Declares(pre + g, r)
  {
    var k :| KeyIn(g, k) && DeclaredBy(g, k, r);
    KeyInShifts(pre, g, k);
    DeclaredShifts(pre, g, k, r);
  }

  lemma DeclaredInFirst(f: string, rest: string, k: Key, r: Route)
    requires AllSettled(f) && Apart(f, rest) && k.start <= |f| && KeyIn(f + rest, k) && DeclaredBy(f + rest, k, r)
    ensures Declares(f, r)
  {
    KeyStays(f, rest, k);
    DeclaredExtends(f, rest, k, r);
  }

  lemma DeclaredInRest(pre: string, g: string, k: Key, r: Route)
    requires pre != [] && pre[|pre| - 1] == '\n'
    requires k.start > |pre| && KeyIn(pre + g, k) && DeclaredBy(pre + g, k, r)
    ensures Declares(g, r)
  {
    var back := Key(k.start - |pre|, k.stop - |pre|, k.end - |pre|);
    assert Shift(back, |pre|) == k;
    KeyInShifts(pre, g, back);
    DeclaredShifts(pre, g, back, r);
  }

  lemma DeclaresOneOf(f: string, rest: string, pre: string, g: string, r: Route)
    requires f + rest == pre + g && |pre| == |f| + 1 && pre[|f|] == '\n'
    requires AllSettled(f) && Apart(f, rest) && Declares(f + rest, r)
    ensures Declares(f, r) || Declares(g, r)
  {
    var text := f + rest;
    var k :| KeyIn(text, k) && DeclaredBy(text, k, r);
    if k.start <= |f| {
      DeclaredInFirst(f, rest, k, r);
    } else {
      KeyStartsBehind(text, |f|, k);
      DeclaredInRest(pre, g, k, r);
    }
  }

  /** The character before a path is a quote, so a path cannot start behind a newline. */
  lemma KeyStartsBehind(text: string, n: nat, k: Key)
    requires n < |text| && text[n] == '\n' && KeyIn(text, k) && k.start > n
    ensures k.start > n + 1
  {}

  /**
   If every key is settled in its own file and no key straddles a boundary, the joined text declares exactly
   what its files declare.
   */
  lemma {:induction false} JoinIsUnion(files: seq<string>, r: Route)
    requires Separate(files)
    ensures Declares(Join(files), r) <==> exists f :: f in files && Declares(f, r)
  {
    if files != [] {
      var f, g := files[0], Join(files[1..]);
      assert Join(files) == f + ("\n" + g);
      assert (f + "\n") + g == f + ("\n" + g);
      JoinIsUnion(files[1..], r);
      assert forall h :: h in files <==> h == f || h in files[1..];
      if Declares(Join(files), r) { DeclaresOneOf(f, "\n" + g, f + "\n", g, r); }
      if Declares(f, r) { DeclaresFirst(f, "\n" + g, r); }
      if Declares(g, r) { DeclaresRest(f + "\n", g, r); }
    }
  }

  lemma StillOpen(f: string, b: nat, rest: string)
    requires b <= |f| && NeverNegative(f, b, |f|) && Balance(f, b, |f|) == 0 && rest != [] && rest[0] == '\n'
    ensures Balance(f + rest, b, |f| + 1) == 0 && NeverNegative(f + rest, b, |f| + 1)
  {
    var text := f + rest;
    forall u | b <= u <= |f| ensures Balance(text, b, u) == Balance(f, b, u) { BalanceExtends(f, rest, b, u); }
    assert text[|f|] == '\n';
  }

  lemma OpenBlockReaches(f: string, b: nat, rest: string, pre: string, g: string, name: string)
    requires f + rest == pre + g && |pre| == |f| + 1 && pre[|f|] == '\n' && rest != [] && rest[0] == '\n'
    requires b <= |f| && NeverNegative(f, b, |f|) && Balance(f, b, |f|) == 0 && g != [] && HasVerb(g, 0, name)
    ensures DirectIn(f + rest, b, |f| + 1, name)
  {
    StillOpen(f, b, rest);
    VerbShifts(pre, g, 0, name);
  }

  lemma LeakDeclares(f: string, rest: string, k: Key, name: string, t: nat)
    requires KeyIn(f, k) && DirectIn(f + rest, k.end, t, name)
    ensures Declares(f + rest, Route(name, f[k.start..k.stop]))
  {
    KeyStays(f, rest, k);
    assert (f + rest)[k.start..k.stop] == f[k.start..k.stop];
  }

  /** The block of `k` is still open at the end of the file, with no nested block open. */
  ghost predicate LeftOpen(f: string, k: Key) {
    KeyIn(f, k) && NeverNegative(f, k.end, |f|) && Balance(f, k.end, |f|) == 0
  }

  lemma LeftOpenTakes(f: string, k: Key, rest: string, pre: string, g: string, name: string)
    requires f + rest == pre + g && |pre| == |f| + 1 && pre[|f|] == '\n' && rest != [] && rest[0] == '\n'
    requires LeftOpen(f, k) && g != [] && HasVerb(g, 0, name)
    ensures Declares(f + rest, Route(name, f[k.start..k.stop]))
  {
    OpenBlockReaches(f, k.end, rest, pre, g, name);
    LeakDeclares(f, rest, k, name, |f| + 1);
  }

  lemma Reassociate(f: string, g: string)
    ensures f + ("\n" + g) == (f + "\n") + g
  {}

  /** Why blocks must close in their own file: one left open takes the methods at the start of whatever comes next. */
  lemma OpenBlockLeaks(f: string, k: Key, g: string, name: string)
    requires LeftOpen(f, k) && g != [] && HasVerb(g, 0, name)
    ensures Declares(f + ("\n" + g), Route(name, f[k.start..k.stop]))
  {
    Reassociate(f, g);
    LeftOpenTakes(f, k, "\n" + g, f + "\n", g, name);
  }
}
