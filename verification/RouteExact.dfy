/**
 Exactly which files may be harvested as one text with whatever follows them: per key, and per set of routes.
 Every file outside the condition is shown a text that breaks it.
 */
module RouteExact {
  import opened RouteText
  import opened RouteBlocks
  import opened RouteOrder
  import opened RouteExtract
  import opened RouteJoin

  // What a cut file can be made to declare by the text behind it.

  /** `name`, then a colon. */
  predicate MethodAt(text: string, t: nat, name: string) {
    name in VERBS && StartsAt(text, t, name) && t + |name| < |text| && text[t + |name|] == ':'
  }

  lemma MethodShifts(f: string, rest: string, i: nat, name: string)
    requires MethodAt(rest, i, name)
    ensures MethodAt(f + rest, |f| + i, name)
  {
    assert (f + rest)[|f| + i..|f| + i + |name|] == rest[i..i + |name|];
  }

  lemma VerbThere(text: string, t: nat, name: string)
    requires MethodAt(text, t, name) && t > 0 && !IsWord(text[t - 1])
    ensures HasVerb(text, t, name)
  {
    assert IsVerb(text, t, name, t + |name| + 1);
  }

  lemma DirectAtOnce(f: string, rest: string, i: nat, name: string)
    requires 0 < i <= |rest| && MethodAt(rest, i, name) && rest[i - 1] == '{'
    ensures DirectSomewhere(f + rest, |f| + i, name)
  {
    MethodShifts(f, rest, i, name);
    assert (f + rest)[|f| + i - 1] == rest[i - 1];
    VerbThere(f + rest, |f| + i, name);
    assert DirectIn(f + rest, |f| + i, |f| + i, name);
  }

  ghost predicate Credits(text: string, k: Key, r: Route) {
    KeyIn(text, k) && DeclaredBy(text, k, r)
  }

  /** `rest` closes a quote at `n`, its first one, and opens a block with a method in it. */
  ghost predicate FinishesPath(rest: string, n: nat, name: string) {
    && n + 3 <= |rest| && (forall u | 0 <= u < n :: rest[u] != '\'')
    && rest[n] == '\'' && rest[n + 1] == ':' && rest[n + 2] == '{' && MethodAt(rest, n + 3, name)
  }

  lemma PathCutKey(f: string, rest: string, p: nat, n: nat, name: string)
    requires PathCut(f, p) && FinishesPath(rest, n, name)
    ensures KeyIn(f + rest, Key(p + 1, |f| + n, |f| + n + 3))
  {
    var text := f + rest;
    forall u | p + 1 <= u < |f| + n ensures text[u] != '\'' {
      if u < |f| { assert text[u] == f[u]; } else { assert text[u] == rest[u - |f|]; }
    }
    assert text[p] == f[p] && text[p + 1] == f[p + 1];
    assert text[|f| + n] == rest[n] && text[|f| + n + 1] == rest[n + 1] && text[|f| + n + 2] == rest[n + 2];
  }

  /** A cut path goes on to the next quote, wherever that is. */
  lemma PathCutTakes(f: string, rest: string, p: nat, n: nat, name: string) returns (k: Key)
    requires PathCut(f, p) && FinishesPath(rest, n, name)
    ensures k == Key(p + 1, |f| + n, |f| + n + 3)
    ensures Credits(f + rest, k, Route(name, (f + rest)[p + 1..|f| + n]))
  {
    k := Key(p + 1, |f| + n, |f| + n + 3);
    PathCutKey(f, rest, p, n, name);
    DirectAtOnce(f, rest, n + 3, name);
  }

  predicate FinishesKey(rest: string, name: string) {
    |rest| >= 2 && rest[0] == '\n' && rest[1] == '{' && MethodAt(rest, 2, name)
  }

  lemma KeyCutKey(f: string, rest: string, p: nat)
    requires KeyCut(f, p) && |rest| >= 2 && rest[0] == '\n' && rest[1] == '{'
    ensures KeyIn(f + rest, Key(p + 1, NextQuote(f, p + 1), |f| + 2))
  {
    var text, q := f + rest, NextQuote(f, p + 1);
    assert forall u | 0 <= u < |f| :: text[u] == f[u];
    assert text[|f|] == rest[0] && text[|f| + 1] == rest[1];
  }

  /** A key cut before its brace takes the next one. */
  lemma KeyCutTakes(f: string, rest: string, p: nat, name: string) returns (k: Key)
    requires KeyCut(f, p) && FinishesKey(rest, name)
    ensures k == Key(p + 1, NextQuote(f, p + 1), |f| + 2)
    ensures Credits(f + rest, k, Route(name, f[p + 1..k.stop]))
  {
    k := Key(p + 1, NextQuote(f, p + 1), |f| + 2);
    KeyCutKey(f, rest, p);
    DirectAtOnce(f, rest, 2, name);
    assert (f + rest)[k.start..k.stop] == f[k.start..k.stop];
  }

  lemma {:induction false} OpenUpTo(f: string, b: nat, u: nat)
    requires b <= u <= |f| && !Closes(f, b)
    ensures NeverNegative(f, b, u)
  {
    if b < u {
      OpenUpTo(f, b, u - 1);
      assert Balance(f, b, u - 1) >= 0;
      if Balance(f, b, u) == -1 { assert Closed(f, b, u); }
    }
  }

  /** Closing braces bring the balance down one by one. */
  lemma {:induction false} ClosersCount(text: string, b: nat, n: nat, i: nat)
    requires b <= n && n + i <= |text| && NeverNegative(text, b, n) && i <= Balance(text, b, n)
    requires forall u | n <= u < n + i :: text[u] == '}'
    ensures NeverNegative(text, b, n + i) && Balance(text, b, n + i) == Balance(text, b, n) - i
  {
    if i > 0 {
      ClosersCount(text, b, n, i - 1);
      assert text[n + (i - 1)] == '}';
    }
  }

  /** After a newline, closes `d` nested blocks and then has a method. */
  ghost predicate FinishesBlock(rest: string, d: nat, name: string) {
    |rest| > d && rest[0] == '\n' && (forall u | 1 <= u <= d :: rest[u] == '}') && MethodAt(rest, 1 + d, name)
  }

  lemma VerbBehindClosers(f: string, rest: string, d: nat, name: string)
    requires FinishesBlock(rest, d, name)
    ensures HasVerb(f + rest, |f| + 1 + d, name)
  {
    MethodShifts(f, rest, 1 + d, name);
    assert (f + rest)[|f| + d] == rest[d];
    VerbThere(f + rest, |f| + 1 + d, name);
  }

  lemma BalanceBehindClosers(f: string, rest: string, b: nat, d: nat)
    requires b <= |f| && NeverNegative(f, b, |f|) && d == Balance(f, b, |f|)
    requires |rest| > d && rest[0] == '\n' && forall u | 1 <= u <= d :: rest[u] == '}'
    ensures NeverNegative(f + rest, b, |f| + 1 + d) && Balance(f + rest, b, |f| + 1 + d) == 0
  {
    var text := f + rest;
    forall u | b <= u <= |f| ensures Balance(text, b, u) == Balance(f, b, u) { BalanceExtends(f, rest, b, u); }
    assert text[|f|] == '\n';
    assert forall u | |f| + 1 <= u < |f| + 1 + d :: text[u] == rest[u - |f|];
    ClosersCount(text, b, |f| + 1, d);
  }

  lemma MethodBehindClosers(f: string, rest: string, b: nat, d: nat, name: string)
    requires b <= |f| && !Closes(f, b) && d == Balance(f, b, |f|) && FinishesBlock(rest, d, name)
    ensures DirectSomewhere(f + rest, b, name)
  {
    OpenUpTo(f, b, |f|);
    BalanceBehindClosers(f, rest, b, d);
    VerbBehindClosers(f, rest, d, name);
    assert DirectIn(f + rest, b, |f| + 1 + d, name);
  }

  lemma SamePath(f: string, rest: string, k: Key)
    requires k.start <= k.stop <= |f|
    ensures (f + rest)[k.start..k.stop] == f[k.start..k.stop]
  {}

  /** An open block takes any method, once the blocks nested in it are closed. */
  lemma OpenBlockTakes(f: string, rest: string, k: Key, d: nat, name: string)
    requires KeyIn(f, k) && !Closes(f, k.end) && Balance(f, k.end, |f|) == d && FinishesBlock(rest, d, name)
    ensures Credits(f + rest, k, Route(name, f[k.start..k.stop]))
  {
    MethodBehindClosers(f, rest, k.end, d, name);
    KeyStays(f, rest, k);
    SamePath(f, rest, k);
    CreditsPath(f + rest, k, name);
  }

  lemma CreditsPath(text: string, k: Key, name: string)
    requires KeyIn(text, k) && DirectSomewhere(text, k.end, name)
    ensures Credits(text, k, Route(name, text[k.start..k.stop]))
  {}

  // Texts that finish what is cut, and declare nothing themselves.

  predicate NoPathStarts(g: string) {
    forall u | 0 <= u < |g| - 1 :: !(g[u] == '\'' && g[u + 1] == '/')
  }

  lemma NoKey(g: string, k: Key)
    requires NoPathStarts(g)
    ensures !KeyIn(g, k)
  {}

  lemma NothingDeclared(g: string, r: Route)
    requires NoPathStarts(g)
    ensures !Declares(g, r)
  {
    forall k ensures !KeyIn(g, k) { NoKey(g, k); }
  }

  /** A rest of the given shape for a file, as a list of one more file. */
  lemma JoinTwo(f: string, g: string)
    ensures Join([f] + [g]) == f + ("\n" + (g + "\n")) && Join([g]) == g + "\n"
  {
    assert ([f] + [g])[1..] == [g] && [g][1..] == [];
    assert Join([]) == "";
    assert Join([g]) == g + "\n" + Join([]);
    assert Join([f] + [g]) == f + "\n" + Join([g]);
  }

  lemma PathFinisher(n: nat) returns (g: string)
    ensures NoPathStarts(g + "\n") && FinishesPath("\n" + (g + "\n"), n + 1, "GET")
  {
    var w := seq(n, _ => 'x');
    g := w + "':{GET:";
    var rest := "\n" + (g + "\n");
    assert rest == ("\n" + w) + "':{GET:\n";
    assert rest[n + 4..n + 7] == "GET";
  }

  lemma KeyFinisher(name: string) returns (g: string)
    requires name in VERBS
    ensures NoPathStarts(g + "\n") && FinishesKey("\n" + (g + "\n"), name)
  {
    g := "{" + name + ":";
    var rest := "\n" + (g + "\n");
    assert rest == "\n{" + (name + ":\n");
    assert rest[2..2 + |name|] == name;
    VerbHasNoQuote(name);
  }

  lemma VerbHasNoQuote(name: string)
    requires name in VERBS
    ensures forall u | 0 <= u < |name| :: name[u] != '\''
  {
    forall u | 0 <= u < |name| ensures name[u] != '\'' { LettersOnly(name, u); }
  }

  lemma BlockFinisher(d: nat, name: string) returns (g: string)
    requires name in VERBS
    ensures NoPathStarts(g + "\n") && FinishesBlock("\n" + (g + "\n"), d, name)
  {
    var w := seq(d, _ => '}');
    g := w + (name + ":");
    var rest := "\n" + (g + "\n");
    assert rest == ("\n" + w) + (name + ":\n");
    assert rest[1 + d..1 + d + |name|] == name;
    VerbHasNoQuote(name);
  }

  // Per key.

  /** The keys that start in `f` declare the same in `f + rest` as in `f` alone. */
  ghost predicate KeepsKeys(f: string, rest: string) {
    forall k: Key, r | k.start <= |f| :: Credits(f + rest, k, r) <==> Credits(f, k, r)
  }

  /** Whatever follows `f` on a new line. */
  ghost predicate AlwaysKeepsKeys(f: string) {
    forall rest | rest != [] && rest[0] == '\n' :: KeepsKeys(f, rest)
  }

  lemma SelfContainedKeeps(f: string, rest: string)
    requires SelfContained(f) && rest != [] && rest[0] == '\n'
    ensures KeepsKeys(f, rest)
  {
    forall k: Key, r | k.start <= |f| ensures Credits(f + rest, k, r) <==> Credits(f, k, r) {
      if KeyIn(f + rest, k) { KeyEndsInside(f, rest, k); }
      if k.end <= |f| {
        KeyStays(f, rest, k);
        if KeyIn(f, k) { DeclaredExtends(f, rest, k, r); }
      }
    }
  }

  lemma PathCutGains(f: string, p: nat)
    requires PathCut(f, p)
    ensures !AlwaysKeepsKeys(f)
  {
    var g := PathFinisher(0);
    var rest := "\n" + (g + "\n");
    var k := PathCutTakes(f, rest, p, 1, "GET");
    var r := Route("GET", (f + rest)[p + 1..|f| + 1]);
    assert Credits(f + rest, k, r) && !Credits(f, k, r);
    assert !KeepsKeys(f, rest);
  }

  lemma KeyCutGains(f: string, p: nat)
    requires KeyCut(f, p)
    ensures !AlwaysKeepsKeys(f)
  {
    var g := KeyFinisher("GET");
    var rest := "\n" + (g + "\n");
    var k := KeyCutTakes(f, rest, p, "GET");
    var r := Route("GET", f[p + 1..k.stop]);
    assert Credits(f + rest, k, r) && !Credits(f, k, r);
    assert !KeepsKeys(f, rest);
  }

  lemma OpenBlockGains(f: string, k: Key, name: string)
    requires KeyIn(f, k) && !Closes(f, k.end) && name in VERBS && !DirectSomewhere(f, k.end, name)
    ensures !AlwaysKeepsKeys(f)
  {
    OpenUpTo(f, k.end, |f|);
    var d: nat := Balance(f, k.end, |f|);
    var g := BlockFinisher(d, name);
    var rest := "\n" + (g + "\n");
    OpenBlockTakes(f, rest, k, d, name);
    var r := Route(name, f[k.start..k.stop]);
    assert Credits(f + rest, k, r) && !Credits(f, k, r);
    assert !KeepsKeys(f, rest);
  }

  /**
   A file's own keys declare the same whatever follows it, if and only if no path key is cut off by its end
   and every key's block closes in it or has every method there is.
   */
  lemma SelfContainedExactly(f: string)
    ensures AlwaysKeepsKeys(f) <==> SelfContained(f)
  {
    if SelfContained(f) {
      forall rest | rest != [] && rest[0] == '\n' ensures KeepsKeys(f, rest) { SelfContainedKeeps(f, rest); }
    } else if p :| 0 <= p < |f| && Undecided(f, p) {
      if PathCut(f, p) { PathCutGains(f, p); } else { KeyCutGains(f, p); }
    } else {
      var k :| KeyIn(f, k) && !KeySettled(f, k);
      var name :| name in VERBS && !DirectSomewhere(f, k.end, name);
      OpenBlockGains(f, k, name);
    }
  }

  // Per set of routes: a cut key does no harm if its routes are declared anyway.

  ghost predicate HarmlessCut(f: string, p: nat, name: string) {
    KeyCut(f, p) ==> Declares(f, Route(name, f[p + 1..NextQuote(f, p + 1)]))
  }

  ghost predicate HarmlessKey(f: string, k: Key, name: string) {
    KeyIn(f, k) && !Closes(f, k.end) ==> Declares(f, Route(name, f[k.start..k.stop]))
  }

  /** No path is cut, and the paths of cut keys and open blocks have every method already. */
  ghost predicate Harmless(f: string) {
    && (forall p | 0 <= p < |f| :: !PathCut(f, p))
    && (forall p, name | 0 <= p < |f| && name in VERBS :: HarmlessCut(f, p, name))
    && (forall k, name | name in VERBS :: HarmlessKey(f, k, name))
  }

  /** Joined in front of any files, `f` adds its own routes and nothing else. */
  ghost predicate AddsItsOwn(f: string) {
    forall files, r :: Declares(Join([f] + files), r) <==> Declares(f, r) || Declares(Join(files), r)
  }

  lemma JoinNext(f: string, files: seq<string>)
    ensures Join([f] + files) == f + ("\n" + Join(files)) == (f + "\n") + Join(files)
  {
    assert ([f] + files)[1..] == files;
  }

  lemma CutKeyShape(f: string, rest: string, k: Key)
    requires rest != [] && rest[0] == '\n' && KeyIn(f + rest, k) && k.start <= |f| < k.end && !PathCut(f, k.start - 1)
    ensures KeyCut(f, k.start - 1) && k.stop == NextQuote(f, k.start)
  {
    var p := k.start - 1;
    if !Undecided(f, p) { KeyEndsInside(f, rest, k); }
    assert KeyCut(f, p);
    var q := NextQuote(f, p + 1);
    assert forall u | 0 <= u < |f| :: (f + rest)[u] == f[u];
  }

  lemma HarmlessInFirst(f: string, rest: string, k: Key, r: Route)
    requires Harmless(f) && rest != [] && rest[0] == '\n' && k.start <= |f| && Credits(f + rest, k, r)
    ensures Declares(f, r)
  {
    DirectIsMethod(f + rest, k.end, r.verb);
    if k.end > |f| {
      CutKeyShape(f, rest, k);
      assert HarmlessCut(f, k.start - 1, r.verb);
      assert (f + rest)[k.start..k.stop] == f[k.start..k.stop];
    } else {
      KeyStays(f, rest, k);
      assert (f + rest)[k.start..k.stop] == f[k.start..k.stop];
      if Closes(f, k.end) {
        DeclaredExtends(f, rest, k, r);
      } else {
        assert HarmlessKey(f, k, r.verb);
      }
    }
  }

  lemma HarmlessOneOf(f: string, rest: string, pre: string, g: string, r: Route)
    requires f + rest == pre + g && |pre| == |f| + 1 && pre[|f|] == '\n' && rest != [] && rest[0] == '\n'
    requires Harmless(f) && Declares(f + rest, r)
    ensures Declares(f, r) || Declares(g, r)
  {
    var text := f + rest;
    var k :| KeyIn(text, k) && DeclaredBy(text, k, r);
    if k.start <= |f| {
      HarmlessInFirst(f, rest, k, r);
    } else {
      assert text[|f|] == '\n';
      KeyStartsBehind(text, |f|, k);
      DeclaredInRest(pre, g, k, r);
    }
  }

  lemma HarmlessAdds(f: string, files: seq<string>, r: Route)
    requires Harmless(f)
    ensures Declares(Join([f] + files), r) <==> Declares(f, r) || Declares(Join(files), r)
  {
    var g := Join(files);
    JoinNext(f, files);
    if Declares(Join([f] + files), r) { HarmlessOneOf(f, "\n" + g, f + "\n", g, r); }
    if Declares(f, r) { DeclaresFirst(f, "\n" + g, r); }
    if Declares(g, r) { DeclaresRest(f + "\n", g, r); }
  }

  /** One more file after which the union fails. */
  lemma UnionFails(f: string, g: string, k: Key, r: Route)
    requires Credits(f + ("\n" + (g + "\n")), k, r) && !Declares(f, r) && NoPathStarts(g + "\n")
    ensures !AddsItsOwn(f)
  {
    JoinTwo(f, g);
    assert Declares(Join([f] + [g]), r);
    NothingDeclared(g + "\n", r);
  }

  /** A file declares no path longer than itself. */
  lemma PathsAreShort(f: string, r: Route)
    requires |r.path| > |f|
    ensures !Declares(f, r)
  {}

  lemma PathCutHarms(f: string, p: nat)
    requires PathCut(f, p)
    ensures !AddsItsOwn(f)
  {
    var g := PathFinisher(|f|);
    var rest := "\n" + (g + "\n");
    var k := PathCutTakes(f, rest, p, |f| + 1, "GET");
    var r := Route("GET", (f + rest)[p + 1..|f| + (|f| + 1)]);
    PathsAreShort(f, r);
    UnionFails(f, g, k, r);
  }

  lemma KeyCutHarms(f: string, p: nat, name: string)
    requires name in VERBS && !HarmlessCut(f, p, name)
    ensures !AddsItsOwn(f)
  {
    var g := KeyFinisher(name);
    var k := KeyCutTakes(f, "\n" + (g + "\n"), p, name);
    UnionFails(f, g, k, Route(name, f[p + 1..k.stop]));
  }

  lemma OpenBlockHarms(f: string, k: Key, name: string)
    requires name in VERBS && !HarmlessKey(f, k, name)
    ensures !AddsItsOwn(f)
  {
    OpenUpTo(f, k.end, |f|);
    var d: nat := Balance(f, k.end, |f|);
    var g := BlockFinisher(d, name);
    OpenBlockTakes(f, "\n" + (g + "\n"), k, d, name);
    UnionFails(f, g, k, Route(name, f[k.start..k.stop]));
  }

  /**
   Harvesting a file joined with others gives the union of its routes and theirs, whatever the others are, if
   and only if no path is cut off by its end, and the path of every cut key and open block has all methods already.
   */
  lemma UnionExactly(f: string)
    ensures AddsItsOwn(f) <==> Harmless(f)
  {
    if Harmless(f) {
      forall files, r ensures Declares(Join([f] + files), r) <==> Declares(f, r) || Declares(Join(files), r) {
        HarmlessAdds(f, files, r);
      }
    } else if p :| 0 <= p < |f| && PathCut(f, p) {
      PathCutHarms(f, p);
    } else if p, name :| 0 <= p < |f| && name in VERBS && !HarmlessCut(f, p, name) {
      KeyCutHarms(f, p, name);
    } else {
      var k, name :| name in VERBS && !HarmlessKey(f, k, name);
      OpenBlockHarms(f, k, name);
    }
  }

  /** So files that are all harmless may be joined in any number and order. */
  lemma {:induction false} HarmlessJoin(files: seq<string>, r: Route)
    requires forall f | f in files :: Harmless(f)
    ensures Declares(Join(files), r) <==> exists f :: f in files && Declares(f, r)
  {
    if files == [] {
      NothingDeclared("", r);
    } else {
      assert files == [files[0]] + files[1..] && files[0] in files;
      assert forall h :: h in files <==> h == files[0] || h in files[1..];
      HarmlessAdds(files[0], files[1..], r);
      HarmlessJoin(files[1..], r);
    }
  }

  /** The files may be harvested as one text, for what they are or for what stands next to what. */
  ghost predicate Joinable(files: seq<string>) {
    Separate(files) || forall f | f in files :: Harmless(f)
  }

  lemma JoinableIsUnion(files: seq<string>, r: Route)
    requires Joinable(files)
    ensures Declares(Join(files), r) <==> exists f :: f in files && Declares(f, r)
  {
    if Separate(files) { JoinIsUnion(files, r); } else { HarmlessJoin(files, r); }
  }

  lemma SampleBlock() returns (f: string)
    ensures f == "'/a': {" && LeftOpen(f, Key(1, 3, 7)) && f[1..3] == "/a"
    ensures forall u | 0 <= u < |f| :: f[u] != 'G'
  {
    f := "'/a': {";
    assert IsKey(f, 0, Key(1, 3, 7));
    assert Balance(f, 7, 7) == 0;
  }

  lemma SampleMethod() returns (g: string)
    ensures g == "GET: 1" && HasVerb(g + "\n", 0, "GET") && NoPathStarts(g)
  {
    g := "GET: 1";
    assert (g + "\n")[0..3] == "GET";
    assert IsVerb(g + "\n", 0, "GET", 4);
  }

  lemma FirstLetter(f: string, t: nat, name: string, end: nat)
    requires IsVerb(f, t, name, end)
    ensures t < |f| && f[t] == name[0]
  {
    LettersOnly(name, 0);
    assert f[t..t + |name|][0] == f[t];
  }

  lemma NoVerbDeclared(f: string, r: Route)
    requires r.verb != [] && forall u | 0 <= u < |f| :: f[u] != r.verb[0]
    ensures !Declares(f, r)
  {
    forall t: nat ensures !HasVerb(f, t, r.verb) {
      if HasVerb(f, t, r.verb) {
        var end: nat :| IsVerb(f, t, r.verb, end);
        FirstLetter(f, t, r.verb, end);
      }
    }
  }

  lemma LeakIsNew(f: string, k: Key, g: string, name: string)
    requires LeftOpen(f, k) && HasVerb(g + "\n", 0, name) && NoPathStarts(g)
    requires name != [] && forall u | 0 <= u < |f| :: f[u] != name[0]
    ensures var r := Route(name, f[k.start..k.stop]); Declares(Join([f] + [g]), r) && !Declares(f, r) && !Declares(g, r)
  {
    OpenBlockLeaks(f, k, g + "\n", name);
    JoinTwo(f, g);
    NothingDeclared(g, Route(name, f[k.start..k.stop]));
    NoVerbDeclared(f, Route(name, f[k.start..k.stop]));
  }

  /** An open block breaks the union: neither file declares the route, and their join does. */
  lemma OpenBlockBreaksUnion()
    ensures var f, g, r := "'/a': {", "GET: 1", Route("GET", "/a");
            Declares(Join([f, g]), r) && !Declares(f, r) && !Declares(g, r)
  {
    var f := SampleBlock();
    var g := SampleMethod();
    LeakIsNew(f, Key(1, 3, 7), g, "GET");
    assert [f] + [g] == [f, g];
  }
}
