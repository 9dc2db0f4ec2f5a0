/**
 Brace balance, the extent of a block, and the method names directly inside it.
 */
module RouteBlocks {
  import opened Wrappers
  import opened RouteText

  function Weight(c: char): int {
    if c == '{' then 1 else if c == '}' then -1 else 0
  }

  /** Opening minus closing braces in text[a..b]. */
  function Balance(text: string, a: nat, b: nat): int
    requires a <= b <= |text|
  {
    if a == b then 0 else Balance(text, a, b - 1) + Weight(text[b - 1])
  }

  /** The balance never falls below zero from `a` up to `b`. */
  ghost predicate NeverNegative(text: string, a: nat, b: nat)
    requires a <= b <= |text|
  {
    forall u | a <= u <= b :: Balance(text, a, u) >= 0
  }

  /** `e` is just past the first brace that closes the block opened before `b`, or the end of the text if none does. */
  ghost predicate IsBlockEnd(text: string, b: nat, e: nat)
    requires b <= |text|
  {
    Closed(text, b, e) || (e == |text| && NeverNegative(text, b, e))
  }

  ghost predicate Closed(text: string, b: nat, e: nat)
    requires b <= |text|
  {
    b < e <= |text| && NeverNegative(text, b, e - 1) && Balance(text, b, e) == -1
  }

  lemma BlockEndIsUnique(text: string, b: nat, e: nat, f: nat)
    requires b <= |text| && IsBlockEnd(text, b, e) && IsBlockEnd(text, b, f)
    ensures e == f
  {}

  /** The scan for the end of a block, counting braces. */
  method ScanBlock(text: string, b: nat) returns (e: nat)
    requires b <= |text|
    ensures IsBlockEnd(text, b, e)
  {
    var i, depth := b, 1;
    while i < |text| && depth > 0
      invariant b <= i <= |text| && depth == Balance(text, b, i) + 1 && depth >= 0
      invariant depth > 0 ==> NeverNegative(text, b, i)
      invariant depth == 0 ==> Closed(text, b, i)
    {
      if text[i] == '{' {
        depth := depth + 1;
      } else if text[i] == '}' {
        depth := depth - 1;
      }
      i := i + 1;
    }
    e := i;
  }

  datatype Spot = Spot(start: nat, found: Found)

  /** No token starts from `i` up to `n`. */
  ghost predicate Gap(text: string, i: nat, n: nat)
    requires n <= |text|
  {
    forall u | i <= u < n :: TokenAt(text, u).None?
  }

  /** Where the next token starts, or the end. */
  function NextToken(text: string, i: nat): (n: nat)
    requires i <= |text|
    ensures i <= n <= |text| && (n < |text| ==> TokenAt(text, n).Some?)
    decreases |text| - i
  {
    if i == |text| || TokenAt(text, i).Some? then i else NextToken(text, i + 1)
  }

  lemma GapExtends(text: string, i: nat, n: nat)
    requires i < n <= |text| && TokenAt(text, i).None? && Gap(text, i + 1, n)
    ensures Gap(text, i, n)
  {}

  lemma {:induction false} NoTokenBefore(text: string, i: nat)
    requires i <= |text|
    ensures Gap(text, i, NextToken(text, i))
    decreases |text| - i
  {
    if i < |text| && TokenAt(text, i).None? {
      NoTokenBefore(text, i + 1);
      GapExtends(text, i, NextToken(text, i + 1));
    }
  }

  /** Leftmost, non-overlapping token matches from `i` on. */
  function FindTokens(text: string, i: nat): seq<Spot>
    requires i <= |text|
    decreases |text| - i
  {
    var n := NextToken(text, i);
    if n == |text| then []
    else
      var f := TokenAt(text, n).value;
      [Spot(n, f)] + FindTokens(text, f.end)
  }

  /** A method name covers no brace, and no other token starts inside it. */
  lemma VerbIsSolid(text: string, t: nat, f: Found, u: nat)
    requires t < |text| && TokenAt(text, t) == Some(f) && t < u < f.end
    ensures Weight(text[u]) == 0 && TokenAt(text, u).None?
  {
    var name := f.token.name;
    var w := t + |name|;
    if u < w {
      assert text[u] == name[u - t] && text[u - 1] == name[u - 1 - t];
      LettersOnly(name, u - t);
      LettersOnly(name, u - 1 - t);
    } else {
      assert IsSpace(text[u]) || text[u] == ':';
      if VerbEnd(text, u).Some? { VerbStartsWithLetter(text, u); }
    }
  }

  lemma LettersOnly(name: string, i: nat)
    requires name in VERBS && i < |name|
    ensures 'A' <= name[i] <= 'Z'
  {}

  lemma VerbStartsWithLetter(text: string, u: nat)
    requires VerbEnd(text, u).Some?
    ensures u < |text| && 'A' <= text[u] <= 'Z'
  {
    var w := WordAt(text, u, VERBS).value;
    LettersOnly(w, 0);
    assert text[u] == w[0];
  }

  lemma {:induction false} BalanceSkips(text: string, a: nat, i: nat, n: nat)
    requires a <= i <= n <= |text| && forall u | i <= u < n :: Weight(text[u]) == 0
    ensures Balance(text, a, n) == Balance(text, a, i)
  {
    if i < n { BalanceSkips(text, a, i, n - 1); }
  }

  /** `name` is a method token at `t`, at brace depth zero of the block. */
  predicate DirectAt(block: string, t: nat, name: string) {
    t < |block| && Balance(block, 0, t) == 0 && TokenAt(block, t).Some? && TokenAt(block, t).value.token == Verb(name)
  }

  ghost predicate DirectBefore(block: string, i: nat, name: string) {
    exists t | 0 <= t < i :: DirectAt(block, t, name)
  }

  lemma DirectGap(block: string, i: nat, n: nat, name: string)
    requires i <= n <= |block| && Gap(block, i, n)
    ensures DirectBefore(block, n, name) <==> DirectBefore(block, i, name)
  {}

  function Turn(token: Token): int {
    if token == Open then 1 else if token == Close then -1 else 0
  }

  /** A token weighs what its first character does. */
  lemma TokenWeight(block: string, n: nat, f: Found)
    requires n < |block| && TokenAt(block, n) == Some(f)
    ensures Weight(block[n]) == Turn(f.token)
    ensures forall u | n < u < f.end :: Weight(block[u]) == 0
  {
    forall u | n < u < f.end ensures Weight(block[u]) == 0 { VerbIsSolid(block, n, f, u); }
    if f.token.Verb? { VerbStartsWithLetter(block, n); }
  }

  lemma TokenTurns(block: string, n: nat, f: Found)
    requires n < f.end <= |block| && TokenAt(block, n) == Some(f)
    ensures Balance(block, 0, f.end) == Balance(block, 0, n) + Turn(f.token)
  {
    TokenWeight(block, n, f);
    BalanceSkips(block, 0, n + 1, f.end);
  }

  lemma GapSkips(block: string, i: nat, n: nat)
    requires i <= n <= |block| && Gap(block, i, n)
    ensures Balance(block, 0, n) == Balance(block, 0, i)
  {
    forall u | i <= u < n ensures Weight(block[u]) == 0 { assert TokenAt(block, u).None?; }
    BalanceSkips(block, 0, i, n);
  }

  /** One token of the scan: the balance at it is the balance before the gap. */
  lemma TokenBalance(block: string, i: nat, n: nat, f: Found)
    requires i <= n < f.end <= |block| && Gap(block, i, n)
    requires TokenAt(block, n) == Some(f)
    ensures Balance(block, 0, n) == Balance(block, 0, i)
    ensures Balance(block, 0, f.end) == Balance(block, 0, i) + Turn(f.token)
  {
    GapSkips(block, i, n);
    TokenTurns(block, n, f);
  }

  /** And it contributes itself only. */
  lemma TokenDirect(block: string, i: nat, n: nat, f: Found, name: string)
    requires i <= n < |block| && Gap(block, i, n)
    requires TokenAt(block, n) == Some(f)
    ensures DirectBefore(block, f.end, name) <==>
            DirectBefore(block, i, name) || (f.token == Verb(name) && Balance(block, 0, n) == 0)
  {
    DirectGap(block, i, n, name);
    assert DirectBefore(block, n + 1, name) <==> DirectBefore(block, n, name) || DirectAt(block, n, name);
    assert Gap(block, n + 1, f.end) by {
      forall u | n < u < f.end ensures TokenAt(block, u).None? { VerbIsSolid(block, n, f, u); }
    }
    DirectGap(block, n + 1, f.end, name);
  }

  /**
   The depth filter: a running depth over the filtered tokens only, which at every token equals
   the brace balance of the raw block before it.
   */
  method DirectVerbs(block: string) returns (names: set<string>)
    ensures forall name :: name in names <==> DirectBefore(block, |block|, name)
  {
    names := {};
    var d := 0;
    var tokens := FindTokens(block, 0);
    ghost var at: nat := 0;
    for j := 0 to |tokens|
      invariant at <= |block| && tokens[j..] == FindTokens(block, at)
      invariant d == Balance(block, 0, at)
      invariant forall name :: name in names <==> DirectBefore(block, at, name)
    {
      ghost var n := NextToken(block, at);
      NoTokenBefore(block, at);
      var f := tokens[j].found;
      assert tokens[j..][0] == tokens[j] && tokens[j..][1..] == tokens[j + 1..];
      TokenBalance(block, at, n, f);
      forall name ensures DirectBefore(block, f.end, name) <==>
                          DirectBefore(block, at, name) || (f.token == Verb(name) && d == 0)
      { TokenDirect(block, at, n, f, name); }
      match f.token {
        case Open => d := d + 1;
        case Close => d := d - 1;
        case Verb(name) => if d == 0 { names := names + {name}; }
      }
      at := f.end;
    }
    ghost var n := NextToken(block, at);
    NoTokenBefore(block, at);
    forall name ensures DirectBefore(block, |block|, name) <==> DirectBefore(block, at, name) {
      DirectGap(block, at, |block|, name);
    }
  }
}
