/**
 Harvesting the route table of the appium base driver from its package, in either layout: one route file,
 or a directory of them.
 */
module RouteHarvest {
  import opened RouteOrder
  import opened RouteExtract
  import opened RouteJoin
  import opened RouteExact

  const PREFIX: string := "package/build/lib/protocol/routes"

  datatype Entry = Entry(name: string, content: string)

  predicate HasSuffix(s: string, suffix: string) {
    |suffix| <= |s| && s[|s| - |suffix|..] == suffix
  }

  predicate IsRouteFile(name: string) {
    name == PREFIX + ".js" || (PREFIX + "/" <= name && HasSuffix(name, ".js"))
  }

  /** A package entry that is route source: the one file of the old layout, or a script of the new one's directory. */
  ghost predicate IsSource(name: string) {
    || name == "package/build/lib/protocol/routes.js"
    || exists d :: name == "package/build/lib/protocol/routes/" + d + ".js"
  }

  lemma PrefixAndSuffix(name: string, prefix: string, suffix: string)
    requires |prefix| + |suffix| <= |name|
    ensures prefix <= name && HasSuffix(name, suffix) <==> exists d :: name == prefix + d + suffix
  {
    if prefix <= name && HasSuffix(name, suffix) {
      assert name == prefix + name[|prefix|..|name| - |suffix|] + suffix;
    }
    if d :| name == prefix + d + suffix { assert name[|name| - |suffix|..] == suffix; }
  }

  /** No name is so short that the prefix and the suffix overlap in it, because the one ends in a slash. */
  lemma NoOverlap(name: string)
    requires PREFIX + "/" <= name && |".js"| <= |name| < |PREFIX + "/"| + |".js"|
    ensures !HasSuffix(name, ".js")
  {
    var n := |PREFIX + "/"|;
    var i := n - 1 - (|name| - 3);
    assert name[|name| - 3..][i] == name[n - 1] == '/';
    assert ".js"[i] != '/';
  }

  lemma Names()
    ensures PREFIX + ".js" == "package/build/lib/protocol/routes.js"
    ensures PREFIX + "/" == "package/build/lib/protocol/routes/"
  {}

  lemma RouteFilesAreSource(name: string)
    ensures IsRouteFile(name) <==> IsSource(name)
  {
    Names();
    if PREFIX + "/" <= name && HasSuffix(name, ".js") {
      if |name| < |PREFIX + "/"| + |".js"| { NoOverlap(name); }
      PrefixAndSuffix(name, PREFIX + "/", ".js");
    }
    if d :| name == "package/build/lib/protocol/routes/" + d + ".js" {
      PrefixAndSuffix(name, PREFIX + "/", ".js");
    }
  }

  function RouteFiles(entries: seq<Entry>): seq<string> {
    if entries == [] then []
    else (if IsRouteFile(entries[0].name) then [entries[0].content] else []) + RouteFiles(entries[1..])
  }

  /** The text to be harvested: the sources' contents in the order of the entries, each followed by a newline. */
  ghost function SourceText(entries: seq<Entry>): string {
    if entries == [] then ""
    else (if IsSource(entries[0].name) then entries[0].content + "\n" else "") + SourceText(entries[1..])
  }

  lemma {:induction false} JoinedIsSourceText(entries: seq<Entry>)
    ensures Join(RouteFiles(entries)) == SourceText(entries)
    ensures RouteFiles(entries) == [] <==> forall e | e in entries :: !IsSource(e.name)
  {
    if entries != [] {
      var first, rest := entries[0], entries[1..];
      assert forall e :: e in entries <==> e == first || e in rest;
      JoinedIsSourceText(rest);
      RouteFilesAreSource(first.name);
      if IsRouteFile(first.name) {
        JoinConcat([first.content], RouteFiles(rest));
        assert Join([first.content]) == first.content + "\n" + Join([]);
      } else {
        assert [] + RouteFiles(rest) == RouteFiles(rest);
      }
    }
  }

  /** Finding no route file, or no route in them, fails loudly instead of writing an empty snapshot. */
  datatype Harvest = NoSource | NoRoutes | Snapshot(routes: seq<Route>)

  lemma {:induction false} JoinConcat(a: seq<string>, b: seq<string>)
    ensures Join(a + b) == Join(a) + Join(b)
  {
    if a == [] {
      assert a + b == b;
    } else {
      assert (a + b)[1..] == a[1..] + b;
      JoinConcat(a[1..], b);
    }
  }

  lemma {:induction false} RouteFilesNext(entries: seq<Entry>, e: Entry)
    ensures RouteFiles(entries + [e]) == RouteFiles(entries) + if IsRouteFile(e.name) then [e.content] else []
  {
    if entries != [] {
      assert (entries + [e])[1..] == entries[1..] + [e];
      RouteFilesNext(entries[1..], e);
    }
  }

  lemma JoinedNext(files: seq<string>, content: string)
    ensures Join(files + [content]) == Join(files) + content + "\n"
  {
    JoinConcat(files, [content]);
    assert Join([content]) == content + "\n" + Join([]);
    assert Join(files) + (content + "\n") == Join(files) + content + "\n";
  }

  method HarvestAppium(entries: seq<Entry>) returns (h: Harvest)
    ensures h == NoSource <==> forall e | e in entries :: !IsSource(e.name)
    ensures h == NoRoutes <==>
            (exists e :: e in entries && IsSource(e.name)) && forall r :: !Declares(SourceText(entries), r)
    ensures h.Snapshot? ==> StrictlySorted(h.routes)
    ensures h.Snapshot? ==> forall r :: r in h.routes <==> Declares(SourceText(entries), r)
  {
    JoinedIsSourceText(entries);
    var text, files := SourceOf(entries);
    if files == 0 { return NoSource; }
    var routes := ExtractRoutes(text);
    if |routes| == 0 {
      h := NoRoutes;
    } else {
      assert routes[0] in routes;
      h := Snapshot(routes);
    }
  }

  /** The loop over the package's entries. */
  method SourceOf(entries: seq<Entry>) returns (text: string, files: nat)
    ensures text == Join(RouteFiles(entries)) && files == |RouteFiles(entries)|
  {
    text := "";
    files := 0;
    for i := 0 to |entries|
      invariant text == Join(RouteFiles(entries[..i])) && files == |RouteFiles(entries[..i])|
    {
      assert entries[..i + 1] == entries[..i] + [entries[i]];
      RouteFilesNext(entries[..i], entries[i]);
      ghost var before := RouteFiles(entries[..i]);
      assert before + [] == before;
      if !IsRouteFile(entries[i].name) { continue; }
      JoinedNext(before, entries[i].content);
      text := text + entries[i].content;
      text := text + "\n";
      files := files + 1;
    }
    assert entries[..|entries|] == entries;
  }

  /** In the new layout a script of the directory is read, in the old one the file beside it. */
  lemma BothLayouts()
    ensures IsSource("package/build/lib/protocol/routes/w3c.js") && IsSource("package/build/lib/protocol/routes.js")
    ensures !IsSource("package/build/lib/protocol/routes/w3c.js.map") && !IsSource("package/lib/protocol/routes.js")
  {
    var dir := "package/build/lib/protocol/routes/";
    assert "package/build/lib/protocol/routes/w3c.js" == dir + "w3c" + ".js";
    forall d ensures "package/build/lib/protocol/routes/w3c.js.map" != dir + d + ".js" {
      assert (dir + d + ".js")[|dir + d + ".js"| - 1] == 's';
    }
    forall d ensures "package/lib/protocol/routes.js" != dir + d + ".js" {
      assert (dir + d + ".js")[8] == dir[8];
    }
  }

  ghost predicate Union(files: seq<string>, r: Route) {
    exists f :: f in files && Declares(f, r)
  }

  /**
   Two layouts of files that may be joined, and that declare the same routes between them give the same list:
   the number of files, their order and the text around the route maps do not matter.
   */
  lemma LayoutsAgree(a: seq<string>, b: seq<string>, s: seq<Route>, t: seq<Route>)
    requires Joinable(a) && Joinable(b)
    requires forall r :: Union(a, r) <==> Union(b, r)
    requires StrictlySorted(s) && forall r :: r in s <==> Declares(Join(a), r)
    requires StrictlySorted(t) && forall r :: r in t <==> Declares(Join(b), r)
    ensures s == t
  {
    forall r ensures r in s <==> r in t {
      JoinableIsUnion(a, r);
      JoinableIsUnion(b, r);
      assert Union(a, r) <==> Union(b, r);
    }
    SortedListIsUnique(s, t);
  }
}
