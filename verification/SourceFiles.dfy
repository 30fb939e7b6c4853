/** `parse_source_list`: from a source list to the files a build script compiles. */
module SourceFiles {
  import opened Common
  import opened Text
  import opened Expansion
  import opened SourceList
  import opened LogicalLines
  import opened WordConservation
  import opened DeclaredNames
  import opened WordMeaning

  /** The directories of the build, with forward slashes. */
  datatype Dirs = Dirs(curSrcdir: string, topSrcdir: string, topBuilddir: string)

  /** With names given: their sources in order; without: the sources of every symbol. */
  datatype SourceLists = Flat(files: seq<string>) | PerSymbol(lists: map<string, seq<string>>)

  function Rewrite(dirs: Dirs, f: string): string {
    var built := dirs.topBuilddir + "/src";
    var g := if built <= f then dirs.topBuilddir + f[|built|..] else f;
    var here := dirs.curSrcdir + "/";
    if here <= g then g[|here|..] else g
  }

  predicate EndsWith(f: string, suffix: string) {
    |suffix| <= |f| && f[|f| - |suffix|..] == suffix
  }

  predicate IsHeader(f: string) {
    EndsWith(f, ".h") || EndsWith(f, ".hpp") || EndsWith(f, ".inl")
  }

  /** The rewritten words that are not headers, in order. */
  function Sources(dirs: Dirs, words: seq<string>): seq<string> {
    if words == [] then []
    else
      var n := |words| - 1;
      var f := Rewrite(dirs, words[n]);
      Sources(dirs, words[..n]) + (if IsHeader(f) then [] else [f])
  }

  /** A file name that ends in `.h`, `.hpp` or `.inl`. */
  ghost predicate NamesHeader(f: string) {
    exists stem :: f == stem + ".h" || f == stem + ".hpp" || f == stem + ".inl"
  }

  lemma HeaderIff(f: string)
    ensures IsHeader(f) <==> NamesHeader(f)
  {
    if IsHeader(f) {
      var n := if EndsWith(f, ".h") then 2 else 4;
      var stem := f[..|f| - n];
      assert f == stem + f[|f| - n..];
    }
    if stem :| f == stem + ".h" || f == stem + ".hpp" || f == stem + ".inl" {
      assert f[|stem|..] == ".h" || f[|stem|..] == ".hpp" || f[|stem|..] == ".inl";
    }
  }

  /**
   Paths below the `src` directory of the build lose that component, and paths
   below the current directory become relative, in this order; others stay.
   */
  lemma RewriteMeaning(dirs: Dirs, f: string, r: string)
    ensures f == dirs.topBuilddir + "/src" + r ==>
              && (!(dirs.curSrcdir + "/" <= dirs.topBuilddir + r) ==> Rewrite(dirs, f) == dirs.topBuilddir + r)
              && forall q :: dirs.topBuilddir + r == dirs.curSrcdir + "/" + q ==> Rewrite(dirs, f) == q
    ensures f == dirs.curSrcdir + "/" + r && !(dirs.topBuilddir + "/src" <= f) ==> Rewrite(dirs, f) == r
    ensures !(dirs.topBuilddir + "/src" <= f) && !(dirs.curSrcdir + "/" <= f) ==> Rewrite(dirs, f) == f
  {
    var built, here := dirs.topBuilddir + "/src", dirs.curSrcdir + "/";
    if f == built + r {
      assert f[|built|..] == r;
      forall q | dirs.topBuilddir + r == here + q ensures Rewrite(dirs, f) == q {
        assert (here + q)[|here|..] == q;
      }
    }
    if f == here + r {
      assert f[|here|..] == r;
    }
  }

  /** `at` lists, in order, exactly the positions that are `good`. */
  ghost predicate Selects(good: seq<bool>, at: seq<nat>) {
    && (forall k :: 0 <= k < |at| ==> at[k] < |good| && good[at[k]])
    && (forall j, k :: 0 <= j < k < |at| ==> at[j] < at[k])
    && (forall i: nat {:trigger i in at} :: i < |good| && good[i] ==> i in at)
  }

  lemma {:induction false} SelectsSnoc(good: seq<bool>, at: seq<nat>, last: bool)
    requires Selects(good, at)
    ensures Selects(good + [last], if last then at + [|good|] else at)
  {
    var at' := if last then at + [|good|] else at;
    forall i: nat | i < |good + [last]| && (good + [last])[i] ensures i in at' {
      assert i in at || i == |good|;
    }
  }

  /** Which words are no headers once they are rewritten. */
  ghost function NoHeaderAt(dirs: Dirs, words: seq<string>): (good: seq<bool>)
    ensures |good| == |words|
    ensures forall i :: 0 <= i < |words| ==> good[i] == !NamesHeader(Rewrite(dirs, words[i]))
  {
    seq(|words|, i requires 0 <= i < |words| => !NamesHeader(Rewrite(dirs, words[i])))
  }

  lemma {:induction false} NoHeaderSnoc(dirs: Dirs, words: seq<string>)
    requires words != []
    ensures var n := |words| - 1;
            NoHeaderAt(dirs, words) == NoHeaderAt(dirs, words[..n]) + [!IsHeader(Rewrite(dirs, words[n]))]
  {
    var n := |words| - 1;
    var all, init := NoHeaderAt(dirs, words), NoHeaderAt(dirs, words[..n]);
    HeaderIff(Rewrite(dirs, words[n]));
    forall i | 0 <= i < n ensures all[i] == init[i] {
      assert words[..n][i] == words[i];
    }
    SameUpToLast(all, init, !IsHeader(Rewrite(dirs, words[n])));
  }

  lemma {:induction false} SameUpToLast(all: seq<bool>, init: seq<bool>, last: bool)
    requires |all| == |init| + 1 && all[|init|] == last && forall i :: 0 <= i < |init| ==> all[i] == init[i]
    ensures all == init + [last]
  {
  }

  /** The sources are the rewritten words at these positions. */
  predicate RewrittenAt(dirs: Dirs, words: seq<string>, at: seq<nat>) {
    && |Sources(dirs, words)| == |at|
    && forall k :: 0 <= k < |at| ==> at[k] < |words| && Sources(dirs, words)[k] == Rewrite(dirs, words[at[k]])
  }

  lemma {:induction false} RewrittenSnoc(dirs: Dirs, words: seq<string>, at: seq<nat>, last: bool)
    requires words != [] && last == !IsHeader(Rewrite(dirs, words[|words| - 1]))
    requires RewrittenAt(dirs, words[..|words| - 1], at)
    ensures RewrittenAt(dirs, words, if last then at + [|words| - 1] else at)
  {
  }

  /** The sources are the words that are no headers, rewritten, each once and in order. */
  lemma {:induction false} SourcesSelect(dirs: Dirs, words: seq<string>) returns (at: seq<nat>)
    ensures Selects(NoHeaderAt(dirs, words), at) && RewrittenAt(dirs, words, at)
  {
    at := [];
    if words != [] {
      var n := |words| - 1;
      at := SourcesSelect(dirs, words[..n]);
      var last := !IsHeader(Rewrite(dirs, words[n]));
      NoHeaderSnoc(dirs, words);
      SelectsSnoc(NoHeaderAt(dirs, words[..n]), at, last);
      RewrittenSnoc(dirs, words, at, last);
      at := if last then at + [n] else at;
    }
  }

  /** No header is among the files returned. */
  lemma {:induction false} NoHeaders(dirs: Dirs, words: seq<string>)
    ensures forall f :: f in Sources(dirs, words) ==> !NamesHeader(f)
  {
    var at := SourcesSelect(dirs, words);
    var files := Sources(dirs, words);
    forall f | f in files ensures !NamesHeader(f) {
      var k :| 0 <= k < |files| && files[k] == f;
      assert NoHeaderAt(dirs, words)[at[k]];
    }
  }

  function Seeds(dirs: Dirs): Table {
    map["top_srcdir" := dirs.topSrcdir, "top_builddir" := dirs.topBuilddir]
  }

  function Start(dirs: Dirs): Progress { Progress(Seeds(dirs), [], 0, None) }

  /** The parser's state after reading the file. */
  function Load(dirs: Dirs, lines: seq<string>): Progress {
    Feed(Start(dirs), lines)
  }

  function FirstMissing(t: Table, names: seq<string>): Option<string> {
    if names == [] then None
    else if names[0] !in t then Some(names[0])
    else FirstMissing(t, names[1..])
  }

  lemma {:induction false} MissingAt(t: Table, names: seq<string>, k: nat)
    requires k <= |names| && (forall i :: 0 <= i < k ==> names[i] in t)
    ensures if k == |names| then FirstMissing(t, names) == None
            else names[k] !in t ==> FirstMissing(t, names) == Some(names[k])
  {
    if k > 0 {
      MissingAt(t, names[1..], k - 1);
    }
  }

  function Gather(dirs: Dirs, t: Table, names: seq<string>): seq<string>
    requires forall i :: 0 <= i < |names| ==> names[i] in t
  {
    if names == [] then []
    else
      var n := |names| - 1;
      Gather(dirs, t, names[..n]) + Sources(dirs, Words(t[names[n]]))
  }

  lemma {:induction false} GatherNoHeaders(dirs: Dirs, t: Table, names: seq<string>)
    requires forall i :: 0 <= i < |names| ==> names[i] in t
    ensures forall f :: f in Gather(dirs, t, names) ==> !NamesHeader(f)
  {
    if names != [] {
      GatherNoHeaders(dirs, t, names[..|names| - 1]);
      NoHeaders(dirs, Words(t[names[|names| - 1]]));
    }
  }

  method ListSources(dirs: Dirs, val: string) returns (srcs: seq<string>)
    ensures srcs == Sources(dirs, Words(val))
  {
    srcs := [];
    var words := Words(val);
    for i := 0 to |words|
      invariant srcs == Sources(dirs, words[..i])
    {
      assert words[..i + 1][..i] == words[..i];
      var f := words[i];
      if dirs.topBuilddir + "/src" <= f {
        f := dirs.topBuilddir + f[|dirs.topBuilddir + "/src"|..];
      }
      if dirs.curSrcdir + "/" <= f {
        f := f[|dirs.curSrcdir + "/"|..];
      }
      if !IsHeader(f) {
        srcs := srcs + [f];
      }
    }
    assert words[..|words|] == words;
  }

  /** The list of each requested symbol, in a dictionary. */
  method ListEach(dirs: Dirs, symTable: Table, names: seq<string>)
    returns (r: Result<map<string, seq<string>>, Error>)
    ensures match FirstMissing(symTable, names)
            case Some(name) => r == Err(KeyError(name))
            case None =>
              && r.Ok?
              && (forall i :: 0 <= i < |names| ==> names[i] in symTable && names[i] in r.value)
              && (forall k :: k in r.value ==> k in symTable && r.value[k] == Sources(dirs, Words(symTable[k])))
  {
    var srcLists: map<string, seq<string>> := map[];
    for i := 0 to |names|
      invariant forall k :: 0 <= k < i ==> names[k] in symTable && names[k] in srcLists
      invariant forall k :: k in srcLists ==> k in symTable && srcLists[k] == Sources(dirs, Words(symTable[k]))
    {
      var sym := names[i];
      if sym !in symTable {
        MissingAt(symTable, names, i);
        return Err(KeyError(sym));
      }
      var srcs := ListSources(dirs, symTable[sym]);
      srcLists := srcLists[sym := srcs];
    }
    MissingAt(symTable, names, |names|);
    return Ok(srcLists);
  }

  /** One list per requested symbol, then their concatenation. */
  method ListNamed(dirs: Dirs, symTable: Table, names: seq<string>) returns (r: Result<seq<string>, Error>)
    ensures match FirstMissing(symTable, names)
            case Some(name) => r == Err(KeyError(name))
            case None => (forall i :: 0 <= i < |names| ==> names[i] in symTable)
                         && r == Ok(Gather(dirs, symTable, names))
    ensures r.Ok? ==> forall f :: f in r.value ==> !NamesHeader(f)
  {
    var lists := ListEach(dirs, symTable, names);
    if lists.Err? {
      return Err(lists.error);
    }
    var srcLists := lists.value;
    var files := [];
    for i := 0 to |names|
      invariant files == Gather(dirs, symTable, names[..i])
    {
      assert names[..i + 1][..i] == names[..i];
      files := files + srcLists[names[i]];
    }
    assert names[..|names|] == names;
    GatherNoHeaders(dirs, symTable, names);
    return Ok(files);
  }

  method ParseSourceList(dirs: Dirs, filename: string, lines: seq<string>, names: seq<string>)
    returns (r: Result<SourceLists, Error>)
    ensures var p := Load(dirs, lines);
            if p.error.Some? then r == Err(p.error.value)
            else if names == [] then
              r == Ok(PerSymbol(map k | k in p.table :: Sources(dirs, Words(p.table[k]))))
            else
              match FirstMissing(p.table, names)
              case Some(name) => r == Err(KeyError(name))
              case None => (forall i :: 0 <= i < |names| ==> names[i] in p.table)
                           && r == Ok(Flat(Gather(dirs, p.table, names)))
    ensures r.Ok? && r.value.Flat? ==> forall f :: f in r.value.files ==> !NamesHeader(f)
  {
    var parser := new SourceListParser();
    parser.AddSymbol("top_srcdir", dirs.topSrcdir);
    parser.AddSymbol("top_builddir", dirs.topBuilddir);
    assert parser.symbolTable == Seeds(dirs);
    var parsed := parser.Parse(filename, lines);
    if parsed.Err? {
      return Err(parsed.error);
    }
    var symTable := parsed.value;
    if names == [] {
      var lists := ListEverySymbol(dirs, symTable);
      return Ok(PerSymbol(lists));
    }
    var named := ListNamed(dirs, symTable, names);
    return if named.Ok? then Ok(Flat(named.value)) else Err(named.error);
  }

  /** The loop over all symbols, in whatever order the dictionary has. */
  method ListEverySymbol(dirs: Dirs, symTable: Table) returns (srcLists: map<string, seq<string>>)
    ensures srcLists == map k | k in symTable :: Sources(dirs, Words(symTable[k]))
  {
    srcLists := map[];
    var left := symTable.Keys;
    while left != {}
      invariant left <= symTable.Keys && srcLists.Keys == symTable.Keys - left
      invariant forall k :: k in srcLists ==> srcLists[k] == Sources(dirs, Words(symTable[k]))
      decreases |left|
    {
      var sym :| sym in left;
      var srcs := ListSources(dirs, symTable[sym]);
      srcLists := srcLists[sym := srcs];
      left := left - {sym};
    }
  }

  /** The two seeded symbols, wherever they are referred to. */
  lemma {:induction false} SeedsMean(dirs: Dirs, path: string)
    requires '$' !in path
    ensures Expand(Seeds(dirs), "$(" + "top_srcdir" + ")" + path) == Ok(dirs.topSrcdir + path)
    ensures Expand(Seeds(dirs), "$(" + "top_builddir" + ")" + path) == Ok(dirs.topBuilddir + path)
  {
    var t := Seeds(dirs);
    assert |"top_srcdir"| != |"top_builddir"|;
    assert t["top_srcdir"] == dirs.topSrcdir && t["top_builddir"] == dirs.topBuilddir;
    PathBelow(t, "top_srcdir", path);
    PathBelow(t, "top_builddir", path);
  }

  lemma {:induction false} PathBelow(t: Table, name: string, path: string)
    requires name in t && ')' !in name && '$' !in path
    ensures Expand(t, "$(" + name + ")" + path) == Ok(t[name] + path)
  {
    ExpandPlain(t, path);
    ExpandRef(t, name, path);
  }

  // --------------------------------------------------------------- end to end

  /** What the build script asks for: for each name, the sources among the pieces written for it. */
  function Wanted(dirs: Dirs, items: seq<Item>, names: seq<string>): seq<string>
    requires Readable(Seeds(dirs), items)
  {
    if names == [] then []
    else
      var n := |names| - 1;
      Wanted(dirs, items, names[..n]) + Sources(dirs, Contributions(Seeds(dirs), items, names[n]))
  }

  /** Defined by the file once and then extended, and by nothing else. */
  predicate Listed(dirs: Dirs, items: seq<Item>, name: string) {
    && name !in Seeds(dirs) && DefinedThenExtended(items, name)
    && exists k :: 0 <= k < |items| && Defines(items[k], name)
  }

  lemma {:induction false} ListedWords(dirs: Dirs, items: seq<Item>, name: string)
    requires Readable(Seeds(dirs), items) && Listed(dirs, items, name)
    ensures var t := Meaning(Seeds(dirs), items);
            name in t && Words(t[name]) == Contributions(Seeds(dirs), items, name)
  {
    var k :| 0 <= k < |items| && Defines(items[k], name);
    DefinedIsKnown(Seeds(dirs), items, k);
    MeaningWords(Seeds(dirs), items, name);
    CollectedIsConcatenation(Seeds(dirs), items, name);
  }

  /**
   Every requested name, defined once and then extended, yields exactly the
   rewritten non-header words of its pieces, in the order of the request and of
   the file.  The file may end inside a continuation; what was begun there is lost.
   */
  lemma {:induction false} EndToEnd(dirs: Dirs, items: seq<Item>, rest: seq<string>, names: seq<string>)
    requires DeclaredInOrder(Seeds(dirs).Keys, items) && OpenBlock(rest)
    requires forall i :: 0 <= i < |names| ==> Listed(dirs, items, names[i])
    ensures Readable(Seeds(dirs), items)
    ensures var p := Load(dirs, FileLines(items) + rest);
            && p.error == None && FirstMissing(p.table, names) == None
            && (forall i :: 0 <= i < |names| ==> names[i] in p.table)
            && Gather(dirs, p.table, names) == Wanted(dirs, items, names)
  {
    ReadableIffDeclared(Seeds(dirs), items);
    FeedMeaningOpen(Start(dirs), items, rest);
    var t := Meaning(Seeds(dirs), items);
    forall i | 0 <= i < |names|
      ensures names[i] in t && Words(t[names[i]]) == Contributions(Seeds(dirs), items, names[i])
    {
      ListedWords(dirs, items, names[i]);
    }
    MissingAt(t, names, |names|);
    GatherIsWanted(dirs, items, t, names);
  }

  lemma {:induction false} GatherIsWanted(dirs: Dirs, items: seq<Item>, t: Table, names: seq<string>)
    requires Readable(Seeds(dirs), items)
    requires forall i :: 0 <= i < |names| ==>
      names[i] in t && Words(t[names[i]]) == Contributions(Seeds(dirs), items, names[i])
    ensures Gather(dirs, t, names) == Wanted(dirs, items, names)
  {
    if names != [] {
      GatherIsWanted(dirs, items, t, names[..|names| - 1]);
    }
  }

  // ------------------------------------------------------ lists of words, end to end

  /** The sources of the requested names, each name being a list of words. */
  function SourcesOf(dirs: Dirs, env: WordTable, names: seq<string>): seq<string>
    requires forall i :: 0 <= i < |names| ==> names[i] in env
  {
    if names == [] then []
    else
      var n := |names| - 1;
      SourcesOf(dirs, env, names[..n]) + Sources(dirs, env[names[n]])
  }

  lemma {:induction false} GatherByWords(dirs: Dirs, t: Table, names: seq<string>)
    requires forall i :: 0 <= i < |names| ==> names[i] in t
    ensures Gather(dirs, t, names) == SourcesOf(dirs, WordTableOf(t), names)
  {
    if names != [] {
      GatherByWords(dirs, t, names[..|names| - 1]);
    }
  }

  /**
   If all references stand alone, the build script gets the sources of the words the
   file means, whatever operators define the names and however often; a name is
   missing exactly if the file does not define it.
   */
  lemma {:induction false} WordsEndToEnd(dirs: Dirs, items: seq<Item>, rest: seq<string>, names: seq<string>)
    requires DeclaredInOrder(Seeds(dirs).Keys, items) && StandAloneItems(items) && OpenBlock(rest)
    ensures var p := Load(dirs, FileLines(items) + rest);
            var env := ListMeaning(WordTableOf(Seeds(dirs)), items);
            && p.error == None && p.table.Keys == env.Keys == NamesAfter(Seeds(dirs).Keys, items)
            && ((forall i :: 0 <= i < |names| ==> names[i] in env) ==>
                  Gather(dirs, p.table, names) == SourcesOf(dirs, env, names))
  {
    ReadableIffDeclared(Seeds(dirs), items);
    FeedMeaningOpen(Start(dirs), items, rest);
    KeysAfter(Seeds(dirs), items);
    ListsOfWords(Seeds(dirs), items);
    var t := Meaning(Seeds(dirs), items);
    assert WordTableOf(t).Keys == t.Keys;
    if forall i :: 0 <= i < |names| ==> names[i] in t {
      GatherByWords(dirs, t, names);
    }
  }

  // ------------------------------------------------------- files without references

  /** Without references the outcome can be read off the text of the file. */
  lemma {:induction false} PlainEndToEnd(dirs: Dirs, items: seq<Item>, rest: seq<string>, name: string)
    requires DeclaredInOrder(Seeds(dirs).Keys, items) && OpenBlock(rest)
    requires DollarFree(items) && Listed(dirs, items, name)
    ensures var p := Load(dirs, FileLines(items) + rest);
            && p.error == None && name in p.table
            && Gather(dirs, p.table, [name]) == Sources(dirs, WrittenFor(items, name))
  {
    ReadableIffDeclared(Seeds(dirs), items);
    FeedMeaningOpen(Start(dirs), items, rest);
    ListedWords(dirs, items, name);
    PlainContributions(Seeds(dirs), items, name);
    assert [name][..0] == [];
  }

  /** A list begun in one place and extended in another: both definitions over any number of lines. */
  lemma {:induction false} ListInTwoPlaces(dirs: Dirs, d: Definition, e: Definition)
    requires WellFormed(d) && WellFormed(e) && d.op != Append && e.op == Append
    requires d.name == e.name && d.name !in Seeds(dirs)
    requires DollarFree([Def(d), Def(e)])
    ensures var p := Load(dirs, Lines(d) + Lines(e));
            && p.error == None && d.name in p.table
            && Gather(dirs, p.table, [d.name]) == Sources(dirs, PlainWords(d.pieces) + PlainWords(e.pieces))
  {
    LinesOfTwo(Def(d), Def(e));
    WrittenInTwo(Def(d), Def(e), d.name);
    TwoDeclared(Seeds(dirs).Keys, d, e);
    assert Defines([Def(d), Def(e)][0], d.name);
    PlainEndToEnd(dirs, [Def(d), Def(e)], [], d.name);
    assert FileLines([Def(d), Def(e)]) + [] == Lines(d) + Lines(e);
  }
}
