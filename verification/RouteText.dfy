/**
 The two patterns of the route harvester, as matchers on raw text:
 a path key, an apostrophe-quoted path starting with a slash, then a colon, white space and an opening brace;
 and a token, either a brace or a method name at a word boundary, then white space and a colon.
 Both are deterministic, and their matches never overlap, so "all matches" needs no scanning order.
 */
module RouteText {
  import opened Wrappers

  predicate IsSpace(c: char) {
    c == ' ' || c == '\t' || c == '\n' || c == '\r' || c == '\U{000C}'
  }

  predicate IsWord(c: char) {
    '0' <= c <= '9' || 'A' <= c <= 'Z' || 'a' <= c <= 'z' || c == '_'
  }

  function SkipSpaces(text: string, i: nat): (j: nat)
    requires i <= |text|
    ensures i <= j <= |text| && (forall u | i <= u < j :: IsSpace(text[u])) && (j < |text| ==> !IsSpace(text[j]))
    decreases |text| - i
  {
    if i < |text| && IsSpace(text[i]) then SkipSpaces(text, i + 1) else i
  }

  /** The next apostrophe at or after `i`, or the end. */
  function NextQuote(text: string, i: nat): (j: nat)
    requires i <= |text|
    ensures i <= j <= |text| && (forall u | i <= u < j :: text[u] != '\'') && (j < |text| ==> text[j] == '\'')
    decreases |text| - i
  {
    if i < |text| && text[i] != '\'' then NextQuote(text, i + 1) else i
  }

  /** A path key match: the path is text[start..stop] and the block begins at `end`. */
  datatype Key = Key(start: nat, stop: nat, end: nat)

  function KeyAt(text: string, p: nat): (k: Option<Key>)
    ensures k.Some? ==> p + 1 == k.value.start <= k.value.stop < k.value.end <= |text|
  {
    if !(p + 1 < |text| && text[p] == '\'' && text[p + 1] == '/') then None
    else
      var q := NextQuote(text, p + 1);
      if !(q + 1 < |text| && text[q + 1] == ':') then None
      else
        var b := SkipSpaces(text, q + 2);
        if b < |text| && text[b] == '{' then Some(Key(p + 1, q, b + 1)) else None
  }

  /** What the key pattern means. */
  ghost predicate IsKey(text: string, p: nat, k: Key) {
    && k.start == p + 1 && k.start < k.stop && k.stop + 1 < k.end - 1 < |text|
    && text[p] == '\'' && text[k.start] == '/' && (forall u | k.start <= u < k.stop :: text[u] != '\'')
    && text[k.stop] == '\'' && text[k.stop + 1] == ':'
    && (forall u | k.stop + 2 <= u < k.end - 1 :: IsSpace(text[u])) && text[k.end - 1] == '{'
  }

  lemma KeyAtIsThePattern(text: string, p: nat, k: Key)
    ensures KeyAt(text, p) == Some(k) <==> IsKey(text, p, k)
  {
    if IsKey(text, p, k) {
      assert NextQuote(text, p + 1) == k.stop;
      assert SkipSpaces(text, k.stop + 2) == k.end - 1;
    }
  }

  datatype Token = Open | Close | Verb(name: string)

  datatype Found = Found(token: Token, end: nat)

  predicate StartsAt(text: string, t: nat, word: string) {
    t + |word| <= |text| && text[t..t + |word|] == word
  }

  const VERBS: seq<string> := ["GET", "POST", "DELETE", "PUT", "PATCH"]

  /** The first alternative that the text continues with. */
  function WordAt(text: string, t: nat, words: seq<string>): (w: Option<string>)
    ensures w.Some? ==> w.value in words && StartsAt(text, t, w.value)
    ensures w.None? ==> forall v | v in words :: !StartsAt(text, t, v)
    decreases |words|, |text|
  {
    if words == [] then None
    else if StartsAt(text, t, words[0]) then Some(words[0])
    else WordAt(text, t, words[1..])
  }

  function VerbEnd(text: string, t: nat): (r: Option<Found>)
    ensures r.Some? ==> r.value.token.Verb? && t < r.value.end <= |text|
  {
    var w := WordAt(text, t, VERBS);
    if w.None? || (t > 0 && IsWord(text[t - 1])) then None
    else
      var c := SkipSpaces(text, t + |w.value|);
      if c < |text| && text[c] == ':' then Some(Found(Verb(w.value), c + 1)) else None
  }

  function TokenAt(text: string, t: nat): (r: Option<Found>)
    requires t < |text|
    ensures r.Some? ==> t < r.value.end <= |text|
  {
    if text[t] == '{' then Some(Found(Open, t + 1))
    else if text[t] == '}' then Some(Found(Close, t + 1))
    else VerbEnd(text, t)
  }

  /** What the method alternative of the token pattern means. */
  ghost predicate IsVerb(text: string, t: nat, name: string, end: nat) {
    && name in VERBS && StartsAt(text, t, name) && (t == 0 || !IsWord(text[t - 1]))
    && t + |name| < end <= |text| && text[end - 1] == ':'
    && forall u | t + |name| <= u < end - 1 :: IsSpace(text[u])
  }

  lemma WordIsUnique(text: string, t: nat, name: string)
    requires name in VERBS && StartsAt(text, t, name)
    ensures WordAt(text, t, VERBS) == Some(name)
  {
    var w := WordAt(text, t, VERBS).value;
    assert text[t] == name[0] == w[0] && text[t + 1] == name[1] == w[1];
  }

  lemma VerbEndIsThePattern(text: string, t: nat, name: string, end: nat)
    ensures VerbEnd(text, t) == Some(Found(Verb(name), end)) <==> IsVerb(text, t, name, end)
  {
    if IsVerb(text, t, name, end) {
      WordIsUnique(text, t, name);
      assert SkipSpaces(text, t + |name|) == end - 1;
    }
  }

  // Leftmost, non-overlapping matching finds every match.

  function FindKeys(text: string, i: nat): seq<Key>
    requires i <= |text|
    decreases |text| - i
  {
    if i == |text| then []
    else match KeyAt(text, i)
      case Some(k) => [k] + FindKeys(text, k.end)
      case None => FindKeys(text, i + 1)
  }

  lemma KeysDoNotOverlap(text: string, p: nat, k: Key, u: nat)
    requires KeyAt(text, p) == Some(k) && p < u < k.end
    ensures KeyAt(text, u).None?
  {}

  lemma KeyHere(text: string, i: nat, m: Key, k: Key)
    requires i < |text| && KeyAt(text, i) == Some(m)
    ensures k in FindKeys(text, i) <==> k == m || k in FindKeys(text, m.end)
    ensures k.start > i && KeyAt(text, k.start - 1) == Some(k) <==>
            k == m || (k.start > m.end && KeyAt(text, k.start - 1) == Some(k))
  {
    if i + 1 < k.start <= m.end { KeysDoNotOverlap(text, i, m, k.start - 1); }
  }

  lemma NoKeyHere(text: string, i: nat, k: Key)
    requires i < |text| && KeyAt(text, i).None?
    ensures FindKeys(text, i) == FindKeys(text, i + 1)
    ensures k.start == i + 1 ==> KeyAt(text, k.start - 1) != Some(k)
  {}

  lemma {:induction false} FindKeysFindsAll(text: string, i: nat, k: Key)
    requires i <= |text|
    ensures k in FindKeys(text, i) <==> k.start > i && KeyAt(text, k.start - 1) == Some(k)
    decreases |text| - i
  {
    if i < |text| {
      match KeyAt(text, i)
      case Some(m) =>
        KeyHere(text, i, m, k);
        FindKeysFindsAll(text, m.end, k);
      case None =>
        NoKeyHere(text, i, k);
        FindKeysFindsAll(text, i + 1, k);
    } else if k.start > i {
      NoKeyBehind(text, k.start - 1);
    }
  }

  lemma NoKeyBehind(text: string, p: nat)
    requires p >= |text|
    ensures KeyAt(text, p).None?
  {}
}
