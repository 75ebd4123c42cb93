/** Zone resolution and the zone catalogue of src/tz.rs.

    The zone database is abstract: `ZoneDb` is the set of identifiers that the
    tzfile library can load, and the directory tree that the catalogue walks is a
    value of type `seq<Entry>` (the entries directly below the database root). */
module ZoneInfo {
  import opened Wrappers

  /** A zone that loaded. The parsed offset rules it also carries are opaque. */
  datatype ValidTz = ValidTz(name: string, displayName: string)

  /** The identifiers the system zone database can load. */
  type ZoneDb = set<string>

  const LoadErrorPrefix: string := "Couldn't load timezone "

  /** The context message attached to a failed load. */
  function LoadError(name: string): string
  {
    LoadErrorPrefix + name
  }

  /** Resolve `name`; the display name is carried along untouched.
      On failure the message names the identifier it could not load. */
  function FromNames(db: ZoneDb, name: string, displayName: string): (r: Result<ValidTz, string>)
    ensures r.Success? <==> name in db
    ensures r.Success? ==> r.value.name == name && r.value.displayName == displayName
    ensures r.Failure? ==> r.error == LoadErrorPrefix + name
  {
    if name in db then Success(ValidTz(name, displayName)) else Failure(LoadError(name))
  }

  // ---------------------------------------------------------------------------
  // The catalogue: `ValidTz::list`
  // ---------------------------------------------------------------------------

  /** Walk bounds: the root (depth 0) itself is never yielded or tested, and
      nothing deeper than four levels below it is visited. */
  const MinDepth: nat := 1
  const MaxDepth: nat := 4

  /** A directory entry's file name, which is either valid UTF-8 or not. */
  datatype FileName = Utf8(text: string) | NotUtf8

  /** One entry of the zone directory tree, in the order the file system lists
      them. `WalkError` stands for an entry or a directory listing that the walk
      could not read; an unreadable or missing root is the tree `[WalkError]`. */
  datatype Entry =
    | File(name: FileName)
    | Dir(name: FileName, children: seq<Entry>)
    | Symlink(name: FileName)
    | WalkError

  /** The `^[A-Z]` test. */
  predicate TitleCase(s: string)
  {
    |s| > 0 && 'A' <= s[0] <= 'Z'
  }

  /** The `filter_entry` predicate: a name that is not UTF-8 is rejected. */
  predicate KeepName(n: FileName)
  {
    n.Utf8? && TitleCase(n.text)
  }

  /** Put `c` in front of every path of `ps`. */
  function Prepend(c: string, ps: seq<seq<string>>): (r: seq<seq<string>>)
    ensures |r| == |ps|
    ensures forall k :: 0 <= k < |r| ==> r[k] == [c] + ps[k]
  {
    seq(|ps|, k requires 0 <= k < |ps| => [c] + ps[k])
  }

  /** The relative paths, as component lists, of the regular files yielded when
      the entries `es` sit at `depth` below the root, in walk order. */
  function Walk(es: seq<Entry>, depth: nat): seq<seq<string>>
    decreases es
  {
    if es == [] then [] else EntryPaths(es[0], depth) + Walk(es[1..], depth)
  }

  /** What one entry at `depth` contributes: a file whose name passes the test
      yields itself; a directory whose name fails is skipped together with its
      subtree, and one at the depth limit is not entered; symbolic links and
      walk errors yield nothing. */
  function EntryPaths(e: Entry, depth: nat): seq<seq<string>>
    decreases e
  {
    match e
    case File(n) => if KeepName(n) then [[n.text]] else []
    case Dir(n, ch) =>
      if KeepName(n) && depth < MaxDepth then Prepend(n.text, Walk(ch, depth + 1)) else []
    case Symlink(_) => []
    case WalkError => []
  }

  /** Join path components with `/`. */
  function JoinPath(p: seq<string>): string
  {
    if |p| <= 1 then (if p == [] then "" else p[0]) else p[0] + "/" + JoinPath(p[1..])
  }

  /** The catalogue: every yielded file's path relative to the database root. */
  function List(root: seq<Entry>): seq<string>
  {
    var paths := Walk(root, MinDepth);
    seq(|paths|, k requires 0 <= k < |paths| => JoinPath(paths[k]))
  }

  // ---------------------------------------------------------------------------
  // An independent description of what the catalogue holds
  // ---------------------------------------------------------------------------

  /** `p` leads, through directories, from one of the entries `es` to a
      regular file. */
  ghost predicate Located(es: seq<Entry>, p: seq<string>)
    decreases |p|, 1
  {
    |p| > 0 &&
    exists k :: 0 <= k < |es| && LocatedIn(es[k], p)
  }

  /** `p` leads from the entry `e` itself to a regular file. */
  ghost predicate LocatedIn(e: Entry, p: seq<string>)
    requires |p| > 0
    decreases |p|, 0
  {
    (|p| == 1 && e == File(Utf8(p[0])))
    || (e.Dir? && e.name == Utf8(p[0]) && Located(e.children, p[1..]))
  }

  /** Every component of `p` passes the name test. */
  ghost predicate AllTitleCase(p: seq<string>)
  {
    forall c :: c in p ==> TitleCase(c)
  }

  lemma LocatedWitness(es: seq<Entry>, p: seq<string>) returns (k: nat)
    requires Located(es, p)
    ensures k < |es| && |p| > 0 && LocatedIn(es[k], p)
  {
    k :| 0 <= k < |es| && LocatedIn(es[k], p);
  }

  lemma LocatedSplit(es: seq<Entry>, p: seq<string>)
    requires es != [] && |p| > 0
    ensures Located(es, p) <==> LocatedIn(es[0], p) || Located(es[1..], p)
  {
    if Located(es, p) {
      var k := LocatedWitness(es, p);
      if k > 0 {
        assert es[1..][k - 1] == es[k];
      }
    }
    if Located(es[1..], p) {
      var k := LocatedWitness(es[1..], p);
      assert es[k + 1] == es[1..][k];
    }
  }

  lemma InPrepend(c: string, ps: seq<seq<string>>, p: seq<string>)
    ensures p in Prepend(c, ps) <==> |p| > 0 && p[0] == c && p[1..] in ps
  {
    var r := Prepend(c, ps);
    if p in r {
      var k :| 0 <= k < |r| && r[k] == p;
      assert p[1..] == ps[k];
    }
    if |p| > 0 && p[0] == c && p[1..] in ps {
      var k :| 0 <= k < |ps| && ps[k] == p[1..];
      assert r[k] == p;
    }
  }

  /** The walk yields exactly the files reachable through names that pass the
      test, at most `MaxDepth - depth + 1` levels further down. */
  lemma {:induction false} WalkExactly(es: seq<Entry>, depth: nat, p: seq<string>)
    requires MinDepth <= depth <= MaxDepth
    ensures p in Walk(es, depth) <==>
              Located(es, p) && |p| <= MaxDepth - depth + 1 && AllTitleCase(p)
    decreases es
  {
    if es != [] {
      WalkExactly(es[1..], depth, p);
      EntryExactly(es[0], depth, p);
      if |p| > 0 {
        LocatedSplit(es, p);
      }
    }
  }

  /** The same, for what one entry contributes. */
  lemma {:induction false} EntryExactly(e: Entry, depth: nat, p: seq<string>)
    requires MinDepth <= depth <= MaxDepth
    ensures p in EntryPaths(e, depth) <==>
              |p| > 0 && LocatedIn(e, p) && |p| <= MaxDepth - depth + 1 && AllTitleCase(p)
    decreases e
  {
    if |p| > 0 {
      AllTitleCaseSplit(p);
    }
    match e
    case File(n) => {
      if KeepName(n) {
        assert p in [[n.text]] <==> p == [n.text];
      }
    }
    case Dir(n, ch) => {
      if KeepName(n) && depth < MaxDepth {
        InPrepend(n.text, Walk(ch, depth + 1), p);
        if |p| > 0 {
          WalkExactly(ch, depth + 1, p[1..]);
        }
      }
    }
    case Symlink(_) => {
    }
    case WalkError => {
    }
  }

  lemma AllTitleCaseSplit(p: seq<string>)
    requires |p| > 0
    ensures AllTitleCase(p) <==> TitleCase(p[0]) && AllTitleCase(p[1..])
  {
    assert p == [p[0]] + p[1..];
  }

  /** Every catalogue path names a regular file reachable from the root, has
      between one and four components, and every component passes the name test;
      conversely every such file is listed. Nothing can make the listing fail. */
  lemma {:induction false} CatalogueExactly(root: seq<Entry>, p: seq<string>)
    ensures p in Walk(root, MinDepth) <==>
              Located(root, p) && MinDepth <= |p| <= MaxDepth && AllTitleCase(p)
  {
    WalkExactly(root, MinDepth, p);
  }

  /** Every listed name starts with an upper-case ASCII letter: in particular it
      is relative, the database root having been stripped. */
  lemma {:induction false} ListedNamesAreRelative(root: seq<Entry>, k: nat)
    requires k < |List(root)|
    ensures TitleCase(List(root)[k])
  {
    var paths := Walk(root, MinDepth);
    assert paths[k] in paths;
    CatalogueExactly(root, paths[k]);
    assert paths[k][0] in paths[k];
  }

  /** A small zone tree: a lower-case directory is pruned with its subtree,
      a lower-case file, a symbolic link and an unreadable entry are dropped,
      and only the two regular files with capitalised paths are listed. */
  lemma ListExample()
    ensures List([
              Dir(Utf8("Europe"), [File(Utf8("London")), Symlink(Utf8("Belfast"))]),
              Dir(Utf8("posix"), [Dir(Utf8("Europe"), [File(Utf8("Paris"))])]),
              File(Utf8("zone.tab")),
              File(Utf8("UTC")),
              WalkError
            ]) == ["Europe/London", "UTC"]
  {
    var europe := Dir(Utf8("Europe"), [File(Utf8("London")), Symlink(Utf8("Belfast"))]);
    assert Walk([File(Utf8("London")), Symlink(Utf8("Belfast"))], 2) == [["London"]];
    assert KeepName(Utf8("Europe"));
    assert Prepend("Europe", [["London"]]) == [["Europe", "London"]] by {
      var p := Prepend("Europe", [["London"]]);
      assert ["Europe"] + ["London"] == ["Europe", "London"];
      assert p[0] == ["Europe", "London"];
      assert p == [p[0]];
    }
    assert EntryPaths(europe, 1) == [["Europe", "London"]];
    assert EntryPaths(Dir(Utf8("posix"), [Dir(Utf8("Europe"), [File(Utf8("Paris"))])]), 1) == [];
    assert EntryPaths(File(Utf8("zone.tab")), 1) == [];
    assert EntryPaths(File(Utf8("UTC")), 1) == [["UTC"]];
    assert JoinPath(["Europe", "London"]) == "Europe/London";
  }
}
