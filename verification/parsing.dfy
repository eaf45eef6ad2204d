/** The file pairing of src/parsing.js: `pairFiles` groups the files of a
    directory walk by directory and base name, `parseFiles` hands each group's
    html and css to the converters, and `collect` gathers the results.

    The walk itself and the reading of files are I/O: the walk is the input
    sequence and reading is a parameter. A JavaScript object used as a string
    dictionary is a `map<string, string>`; the grouping object keeps its keys
    in insertion order, which `keys` records (a key always contains a `/`, so
    none is an array index, which JavaScript would enumerate first). */
module Parsing {
  import opened Wrappers

  // ---------------------------------------------------------------------------
  // split('.') and reduce

  /** `s.split('.')`: the pieces between dots, never an empty list. */
  function SplitDots(s: string): (r: seq<string>)
    ensures |r| >= 1
    decreases |s|
  {
    if s == [] then [""]
    else
      var rest := SplitDots(s[1..]);
      if s[0] == '.' then [""] + rest else [[s[0]] + rest[0]] + rest[1..]
  }

  /** `xs.reduce((a, b) => `${a}.${b}`)` without an initial value: a left fold
      from the first element; on an empty array it throws. */
  function JoinDots(xs: seq<string>): (r: Option<string>)
    ensures r.None? <==> xs == []
    decreases |xs|
  {
    if xs == [] then None
    else if |xs| == 1 then Some(xs[0])
    else Some(JoinDots(xs[..|xs| - 1]).value + "." + xs[|xs| - 1])
  }

  /** The index of the first dot of `s`, if it has one. */
  function FirstDot(s: string): (r: Option<nat>)
    ensures r.None? <==> '.' !in s
    ensures r.Some? ==> r.value < |s| && s[r.value] == '.' && '.' !in s[..r.value]
    decreases |s|
  {
    if s == [] then None
    else if s[0] == '.' then Some(0)
    else
      match FirstDot(s[1..])
      case None => None
      case Some(i) =>
        assert s[..i + 1] == [s[0]] + s[1..][..i];
        Some(i + 1)
  }

  /** The name as `pairFiles` cuts it: the base name `dotSplit[0]` and the
      extension, the remaining pieces joined back with dots. */
  datatype NameParts = NameParts(base: string, extension: string)

  function SplitName(name: string): (r: Option<NameParts>)
    ensures r.None? <==> '.' !in name
  {
    var pieces := SplitDots(name);
    SplitNoDot(name);
    match JoinDots(pieces[1..])
    case None => None
    case Some(ext) => Some(NameParts(pieces[0], ext))
  }

  lemma JoinCons(x: string, xs: seq<string>)
    requires xs != []
    ensures JoinDots([x] + xs).value == x + "." + JoinDots(xs).value
    decreases |xs|
  {
    if |xs| > 1 {
      var ys := [x] + xs;
      assert ys[..|ys| - 1] == [x] + xs[..|xs| - 1];
      JoinCons(x, xs[..|xs| - 1]);
    } else {
      assert [x] + xs == [x, xs[0]];
      assert [x, xs[0]][..1] == [x];
    }
  }

  /** Splitting on dots and joining the pieces back gives the name again. */
  lemma {:induction false} JoinSplit(s: string)
    ensures JoinDots(SplitDots(s)) == Some(s)
    decreases |s|
  {
    if s != [] {
      JoinSplit(s[1..]);
      if s[0] == '.' {
        JoinSplitDot(s);
      } else {
        JoinSplitChar(s);
      }
    }
  }

  lemma JoinSplitDot(s: string)
    requires s != [] && s[0] == '.' && JoinDots(SplitDots(s[1..])) == Some(s[1..])
    ensures JoinDots(SplitDots(s)) == Some(s)
  {
    var rest := SplitDots(s[1..]);
    assert SplitDots(s) == [""] + rest;
    JoinCons("", rest);
    assert "" + "." + s[1..] == s;
  }

  lemma JoinSplitChar(s: string)
    requires s != [] && s[0] != '.' && JoinDots(SplitDots(s[1..])) == Some(s[1..])
    ensures JoinDots(SplitDots(s)) == Some(s)
  {
    var rest := SplitDots(s[1..]);
    var c := [s[0]];
    assert SplitDots(s) == [c + rest[0]] + rest[1..];
    assert c + s[1..] == s;
    if |rest| == 1 {
      assert [c + rest[0]] + rest[1..] == [c + rest[0]];
      assert JoinDots(rest) == Some(rest[0]);
    } else {
      JoinSplitLonger(c, rest, s[1..]);
    }
  }

  lemma JoinSplitLonger(c: string, rest: seq<string>, t: string)
    requires |rest| > 1 && JoinDots(rest) == Some(t)
    ensures JoinDots([c + rest[0]] + rest[1..]) == Some(c + t)
  {
    var x := rest[0];
    var ys := rest[1..];
    assert rest == [x] + ys;
    JoinCons(x, ys);
    JoinCons(c + x, ys);
    var j := JoinDots(ys).value;
    Reassociate(c, x, j);
  }

  lemma Reassociate(c: string, x: string, j: string)
    ensures (c + x) + "." + j == c + (x + "." + j)
  {
  }

  /** Without a dot there is a single piece, so nothing is left to reduce. */
  lemma {:induction false} SplitNoDot(s: string)
    ensures '.' !in s <==> |SplitDots(s)| == 1
    ensures '.' !in s ==> SplitDots(s) == [s]
    decreases |s|
  {
    if s != [] {
      SplitNoDot(s[1..]);
      assert s == [s[0]] + s[1..];
      assert '.' in s <==> s[0] == '.' || '.' in s[1..];
    }
  }

  /** Up to the first dot `split` makes one piece; the rest is split on its own. */
  lemma {:induction false} SplitAtFirstDot(s: string, i: nat)
    requires FirstDot(s) == Some(i)
    ensures SplitDots(s) == [s[..i]] + SplitDots(s[i + 1..])
    decreases |s|
  {
    if i > 0 {
      assert FirstDot(s[1..]) == Some(i - 1);
      SplitAtFirstDot(s[1..], i - 1);
      assert s[1..][..i - 1] == s[1..i];
      assert s[1..][i - 1 + 1..] == s[i + 1..];
      assert [s[0]] + s[1..i] == s[..i];
    }
  }

  /** The base name is the text before the first dot and the extension all of
      the text after it, later dots included. */
  lemma NamePartsAtFirstDot(name: string)
    requires '.' in name
    ensures SplitName(name) == Some(NameParts(name[..FirstDot(name).value], name[FirstDot(name).value + 1..]))
  {
    var i := FirstDot(name).value;
    SplitAtFirstDot(name, i);
    JoinSplit(name[i + 1..]);
    assert SplitDots(name)[1..] == SplitDots(name[i + 1..]);
  }

  // ---------------------------------------------------------------------------
  // pairFiles

  /** One `{path, entry}` of the walk: the directory and the file's name. */
  datatype WalkedFile = WalkedFile(path: string, name: string)

  function FullPath(f: WalkedFile): string {
    f.path + "/" + f.name
  }

  /** `path + '/' + baseName`, the grouping key. */
  function KeyOf(f: WalkedFile, parts: NameParts): string {
    f.path + "/" + parts.base
  }

  /** The grouping object `maps`: its keys in insertion order, and the
      per-key object `{name: baseName, <extension>: fullPath, ...}`. */
  datatype Groups = Groups(keys: seq<string>, objects: map<string, map<string, string>>)

  predicate NoDup<T(==)>(s: seq<T>) {
    forall i, j :: 0 <= i < j < |s| ==> s[i] != s[j]
  }

  ghost predicate GroupsValid(g: Groups) {
    NoDup(g.keys) && (forall k :: k in g.keys <==> k in g.objects) && (forall k :: k in g.objects ==> "name" in g.objects[k])
  }

  /** The body of the first loop for one file; `None` is the throw of `reduce`
      on a name without a dot. */
  function AddFile(g: Groups, f: WalkedFile): (r: Option<Groups>)
    ensures r.None? <==> '.' !in f.name
    ensures r.Some? ==> GroupsValid(g) ==> GroupsValid(r.value)
  {
    match SplitName(f.name)
    case None => None
    case Some(parts) =>
      var key := KeyOf(f, parts);
      var obj := if key in g.objects then g.objects[key] else map["name" := parts.base];
      Some(Groups(if key in g.keys then g.keys else g.keys + [key], g.objects[key := obj[parts.extension := FullPath(f)]]))
  }

  /** The first loop of `pairFiles`: every walked file added in walk order. */
  function GroupFiles(files: seq<WalkedFile>): (r: Option<Groups>)
    ensures r.Some? ==> GroupsValid(r.value)
    decreases |files|
  {
    if files == [] then Some(Groups([], map[]))
    else
      match GroupFiles(files[..|files| - 1])
      case None => None
      case Some(g) => AddFile(g, files[|files| - 1])
  }

  /** Grouping fails exactly when some walked name has no dot: the throw
      of the first such file ends the loop. */
  lemma {:induction false} GroupFilesFails(files: seq<WalkedFile>)
    ensures GroupFiles(files).None? <==> exists i :: 0 <= i < |files| && '.' !in files[i].name
    decreases |files|
  {
    if files != [] {
      var init := files[..|files| - 1];
      var last := files[|files| - 1];
      GroupFilesFails(init);
      assert forall i :: 0 <= i < |init| ==> init[i] == files[i];
      if GroupFiles(init).None? {
        var i :| 0 <= i < |init| && '.' !in init[i].name;
        assert '.' !in files[i].name;
      } else if '.' in last.name {
        assert forall i :: 0 <= i < |files| ==> '.' in files[i].name by {
          forall i | 0 <= i < |files| ensures '.' in files[i].name {
            if i < |init| {
              assert files[i] == init[i];
            }
          }
        }
      }
    }
  }

  /** The group key of a file whose name has a dot. */
  function FileKey(f: WalkedFile): string
    requires '.' in f.name
  {
    KeyOf(f, SplitName(f.name).value)
  }

  function FileExtension(f: WalkedFile): string
    requires '.' in f.name
  {
    SplitName(f.name).value.extension
  }

  /** File `i` is the last one of its group with its extension. */
  predicate LastOfItsKind(files: seq<WalkedFile>, i: int)
    requires 0 <= i < |files| && forall j :: 0 <= j < |files| ==> '.' in files[j].name
  {
    forall j :: i < j < |files| ==> FileKey(files[j]) != FileKey(files[i]) || FileExtension(files[j]) != FileExtension(files[i])
  }

  /** What adding one file does to the grouping object. */
  lemma AddFileEffect(g: Groups, f: WalkedFile)
    requires '.' in f.name
    ensures AddFile(g, f).Some?
    ensures var r := AddFile(g, f).value; var key := FileKey(f);
            && key in r.objects
            && r.objects[key] == (if key in g.objects then g.objects[key] else map["name" := SplitName(f.name).value.base])
                                 [FileExtension(f) := FullPath(f)]
            && forall k :: k != key ==> (k in r.objects <==> k in g.objects) && (k in g.objects ==> r.objects[k] == g.objects[k])
  {
  }

  /** Every file lands in the group of its key, and no group is made without a file. */
  lemma {:induction false} GroupKeys(files: seq<WalkedFile>)
    requires forall j :: 0 <= j < |files| ==> '.' in files[j].name
    ensures GroupFiles(files).Some?
    ensures forall k :: k in GroupFiles(files).value.objects <==>
              exists i :: 0 <= i < |files| && FileKey(files[i]) == k
    decreases |files|
  {
    if files != [] {
      var init := files[..|files| - 1];
      var last := files[|files| - 1];
      assert forall i :: 0 <= i < |init| ==> init[i] == files[i];
      GroupKeys(init);
      var g := GroupFiles(init).value;
      AddFileEffect(g, last);
      var r := GroupFiles(files).value;
      assert r == AddFile(g, last).value;
      forall k
        ensures k in r.objects <==> exists i :: 0 <= i < |files| && FileKey(files[i]) == k
      {
        if k == FileKey(last) {
          assert FileKey(files[|files| - 1]) == k;
        } else if k in g.objects {
          var i :| 0 <= i < |init| && FileKey(init[i]) == k;
          assert FileKey(files[i]) == k;
        } else {
          assert forall i :: 0 <= i < |init| ==> FileKey(init[i]) != k;
        }
      }
    }
  }

  /** The position of the first `x` in `s`. */
  function IndexOf(s: seq<string>, x: string): (r: nat)
    requires x in s
    ensures r < |s| && s[r] == x && forall k :: 0 <= k < r ==> s[k] != x
  {
    if s[0] == x then 0 else 1 + IndexOf(s[1..], x)
  }

  /** Appending to a list does not move what is already in it. */
  lemma IndexOfAppend(s: seq<string>, y: string, x: string)
    requires x in s
    ensures IndexOf(s + [y], x) == IndexOf(s, x)
  {
    assert (s + [y])[IndexOf(s, x)] == x;
  }

  /** File `i` is the first walked file with its key. */
  predicate FirstOfKey(files: seq<WalkedFile>, i: int)
    requires 0 <= i < |files| && forall j :: 0 <= j < |files| ==> '.' in files[j].name
  {
    forall j :: 0 <= j < i ==> FileKey(files[j]) != FileKey(files[i])
  }

  /** The grouping object lists its keys in the order their first files were
      walked, which is the order `for (const key in maps)` visits them. */
  lemma {:induction false} GroupKeyOrder(files: seq<WalkedFile>, i: nat, j: nat)
    requires forall k :: 0 <= k < |files| ==> '.' in files[k].name
    requires i < j < |files| && FirstOfKey(files, i) && FirstOfKey(files, j)
    ensures GroupFiles(files).Some?
    ensures FileKey(files[i]) in GroupFiles(files).value.keys && FileKey(files[j]) in GroupFiles(files).value.keys
    ensures IndexOf(GroupFiles(files).value.keys, FileKey(files[i])) < IndexOf(GroupFiles(files).value.keys, FileKey(files[j]))
    decreases |files|
  {
    var init := files[..|files| - 1];
    var last := files[|files| - 1];
    assert forall k :: 0 <= k < |init| ==> init[k] == files[k];
    GroupKeys(init);
    GroupKeys(files);
    var g := GroupFiles(init).value;
    assert GroupFiles(files) == AddFile(g, last);
    var r := GroupFiles(files).value;
    var ki := FileKey(files[i]);
    var kj := FileKey(files[j]);
    assert ki in r.objects && kj in r.objects by {
      assert FileKey(files[i]) == ki && FileKey(files[j]) == kj;
    }
    assert ki in g.objects by {
      assert FileKey(init[i]) == ki;
    }
    var key := FileKey(last);
    assert r.keys == if key in g.keys then g.keys else g.keys + [key];
    if j < |init| {
      assert FirstOfKey(init, i) && FirstOfKey(init, j);
      GroupKeyOrder(init, i, j);
      if key !in g.keys {
        IndexOfAppend(g.keys, key, ki);
        IndexOfAppend(g.keys, key, kj);
      }
    } else {
      assert kj == key;
      assert kj !in g.objects by {
        assert forall k :: 0 <= k < |init| ==> FileKey(init[k]) != kj;
      }
      assert r.keys == g.keys + [kj];
      IndexOfAppend(g.keys, kj, ki);
      assert r.keys[|g.keys|] == kj && forall k :: 0 <= k < |g.keys| ==> r.keys[k] != kj;
    }
  }

  /** Within a group, the last file with a given extension is the one whose
      path is kept under that extension. */
  lemma {:induction false} GroupLastWins(files: seq<WalkedFile>, i: nat)
    requires forall j :: 0 <= j < |files| ==> '.' in files[j].name
    requires i < |files| && LastOfItsKind(files, i)
    ensures GroupFiles(files).Some?
    ensures FileKey(files[i]) in GroupFiles(files).value.objects
    ensures FileExtension(files[i]) in GroupFiles(files).value.objects[FileKey(files[i])]
    ensures GroupFiles(files).value.objects[FileKey(files[i])][FileExtension(files[i])] == FullPath(files[i])
    decreases |files|
  {
    var init := files[..|files| - 1];
    var last := files[|files| - 1];
    assert forall j :: 0 <= j < |init| ==> init[j] == files[j];
    GroupKeys(init);
    var g := GroupFiles(init).value;
    assert GroupFiles(files) == AddFile(g, last);
    var f := files[i];
    if i < |init| {
      assert f == init[i];
      assert LastOfItsKind(init, i);
      GroupLastWins(init, i);
      EntrySurvivesAdd(g, last, FileKey(f), FileExtension(f), FullPath(f));
    } else {
      AddFileEffect(g, last);
    }
  }

  /** Adding a file keeps every entry but the one under its own key and
      extension. */
  lemma EntrySurvivesAdd(g: Groups, f: WalkedFile, key: string, ext: string, v: string)
    requires key in g.objects && ext in g.objects[key] && g.objects[key][ext] == v
    requires '.' in f.name && (FileKey(f) != key || FileExtension(f) != ext)
    ensures AddFile(g, f).Some? && key in AddFile(g, f).value.objects
    ensures ext in AddFile(g, f).value.objects[key] && AddFile(g, f).value.objects[key][ext] == v
  {
    AddFileEffect(g, f);
  }

  /** A group is created by its first file, under that file's base name,
      and keeps it as its `name` unless a file of the group has the extension
      `name`. */
  lemma {:induction false} GroupName(files: seq<WalkedFile>, i: nat)
    requires forall j :: 0 <= j < |files| ==> '.' in files[j].name
    requires i < |files| && forall j :: 0 <= j < i ==> FileKey(files[j]) != FileKey(files[i])
    requires forall j :: 0 <= j < |files| && FileKey(files[j]) == FileKey(files[i]) ==> FileExtension(files[j]) != "name"
    ensures GroupFiles(files).Some? && FileKey(files[i]) in GroupFiles(files).value.objects
    ensures "name" in GroupFiles(files).value.objects[FileKey(files[i])]
    ensures GroupFiles(files).value.objects[FileKey(files[i])]["name"] == SplitName(files[i].name).value.base
    decreases |files|
  {
    if i < |files| - 1 {
      var init := files[..|files| - 1];
      var last := files[|files| - 1];
      assert forall j :: 0 <= j < |init| ==> init[j] == files[j];
      GroupKeys(init);
      var g := GroupFiles(init).value;
      assert GroupFiles(files) == AddFile(g, last);
      var f := files[i];
      assert f == init[i];
      GroupName(init, i);
      EntrySurvivesAdd(g, last, FileKey(f), "name", SplitName(f.name).value.base);
    } else {
      assert FileExtension(files[i]) != "name";
      NameOfNewGroup(files);
    }
  }

  /** The case of `GroupName` where the file is the last one walked. */
  lemma NameOfNewGroup(files: seq<WalkedFile>)
    requires files != [] && forall j :: 0 <= j < |files| ==> '.' in files[j].name
    requires forall j :: 0 <= j < |files| - 1 ==> FileKey(files[j]) != FileKey(files[|files| - 1])
    requires FileExtension(files[|files| - 1]) != "name"
    ensures GroupFiles(files).Some? && FileKey(files[|files| - 1]) in GroupFiles(files).value.objects
    ensures "name" in GroupFiles(files).value.objects[FileKey(files[|files| - 1])]
    ensures GroupFiles(files).value.objects[FileKey(files[|files| - 1])]["name"]
            == SplitName(files[|files| - 1].name).value.base
  {
    var init := files[..|files| - 1];
    var last := files[|files| - 1];
    assert forall j :: 0 <= j < |init| ==> init[j] == files[j];
    NewKey(init, last);
    assert GroupFiles(files) == AddFile(GroupFiles(init).value, last);
    NameOnCreate(GroupFiles(init).value, last);
  }

  /** A file whose key no earlier file has finds no group for it yet. */
  lemma NewKey(init: seq<WalkedFile>, f: WalkedFile)
    requires forall j :: 0 <= j < |init| ==> '.' in init[j].name
    requires '.' in f.name && forall j :: 0 <= j < |init| ==> FileKey(init[j]) != FileKey(f)
    ensures GroupFiles(init).Some? && FileKey(f) !in GroupFiles(init).value.objects
  {
    GroupKeys(init);
  }

  /** The file that opens a group names it after its base name. */
  lemma NameOnCreate(g: Groups, f: WalkedFile)
    requires '.' in f.name && FileKey(f) !in g.objects && FileExtension(f) != "name"
    ensures AddFile(g, f).Some? && FileKey(f) in AddFile(g, f).value.objects
    ensures "name" in AddFile(g, f).value.objects[FileKey(f)]
    ensures AddFile(g, f).value.objects[FileKey(f)]["name"] == SplitName(f.name).value.base
  {
    AddFileEffect(g, f);
  }

  /** The object `pairFiles` yields for one group: `{path: key, ...objectRead}`,
      where `objectRead` copies `name` and holds every other entry's file
      contents; an entry named `path` overrides the key, as the spread comes last. */
  function ReadGroup(read: string -> string, key: string, obj: map<string, string>): (r: map<string, string>)
    ensures r.Keys == obj.Keys + {"path"}
    ensures "path" !in obj ==> r["path"] == key
    ensures forall k :: k in obj ==> r[k] == (if k == "name" then obj[k] else read(obj[k]))
  {
    map["path" := key] + map k | k in obj :: if k == "name" then obj[k] else read(obj[k])
  }

  function ReadGroups(read: string -> string, g: Groups, keys: seq<string>): (r: seq<map<string, string>>)
    requires forall k :: k in keys ==> k in g.objects
    ensures |r| == |keys| && forall i :: 0 <= i < |keys| ==> r[i] == ReadGroup(read, keys[i], g.objects[keys[i]])
  {
    seq(|keys|, i requires 0 <= i < |keys| => ReadGroup(read, keys[i], g.objects[keys[i]]))
  }

  /** `pairFiles`: one object per group, in the order the groups were first
      seen; `None` when some file name has no dot. */
  function PairFiles(read: string -> string, files: seq<WalkedFile>): (r: Option<seq<map<string, string>>>)
    ensures r.None? <==> exists i :: 0 <= i < |files| && '.' !in files[i].name
    ensures r.Some? ==> GroupFiles(files).Some? && |r.value| == |GroupFiles(files).value.keys|
  {
    GroupFilesFails(files);
    match GroupFiles(files)
    case None => None
    case Some(g) => Some(ReadGroups(read, g, g.keys))
  }

  /** The file that is last of its kind in its group has its contents in that
      group's object, under its extension; and the group's `path` is its key. */
  lemma PairedContents(read: string -> string, files: seq<WalkedFile>, i: nat)
    requires forall j :: 0 <= j < |files| ==> '.' in files[j].name
    requires i < |files| && LastOfItsKind(files, i)
    requires FileExtension(files[i]) != "name" && FileExtension(files[i]) != "path"
    requires forall j :: 0 <= j < |files| && FileKey(files[j]) == FileKey(files[i]) ==> FileExtension(files[j]) != "path"
    ensures PairFiles(read, files).Some?
    ensures exists k :: 0 <= k < |PairFiles(read, files).value|
                        && PairFiles(read, files).value[k]["path"] == FileKey(files[i])
                        && FileExtension(files[i]) in PairFiles(read, files).value[k]
                        && PairFiles(read, files).value[k][FileExtension(files[i])] == read(FullPath(files[i]))
  {
    GroupKeys(files);
    GroupLastWins(files, i);
    var g := GroupFiles(files).value;
    var key := FileKey(files[i]);
    assert key in g.keys;
    var k :| 0 <= k < |g.keys| && g.keys[k] == key;
    var obj := g.objects[key];
    assert "path" !in obj by {
      if "path" in obj {
        PathEntryHasFile(files, key);
      }
    }
    var rec := PairFiles(read, files).value[k];
    assert rec == ReadGroup(read, key, obj);
  }

  /** A group's object holds only `name` and the extensions of its files. */
  lemma {:induction false} PathEntryHasFile(files: seq<WalkedFile>, key: string)
    requires forall j :: 0 <= j < |files| ==> '.' in files[j].name
    requires GroupFiles(files).Some? && key in GroupFiles(files).value.objects
    ensures forall x :: x in GroupFiles(files).value.objects[key] && x != "name" ==>
              exists j :: 0 <= j < |files| && FileKey(files[j]) == key && FileExtension(files[j]) == x
    decreases |files|
  {
    var init := files[..|files| - 1];
    var last := files[|files| - 1];
    assert forall j :: 0 <= j < |init| ==> init[j] == files[j];
    GroupKeys(init);
    var g := GroupFiles(init).value;
    AddFileEffect(g, last);
    var r := AddFile(g, last).value;
    assert GroupFiles(files).value == r;
    if key in g.objects {
      PathEntryHasFile(init, key);
    }
    forall x | x in r.objects[key] && x != "name"
      ensures exists j :: 0 <= j < |files| && FileKey(files[j]) == key && FileExtension(files[j]) == x
    {
      if key == FileKey(last) && x == FileExtension(last) {
        assert FileKey(files[|files| - 1]) == key;
      } else {
        assert key in g.objects && x in g.objects[key];
        var j :| 0 <= j < |init| && FileKey(init[j]) == key && FileExtension(init[j]) == x;
        assert files[j] == init[j];
      }
    }
  }

  // ---------------------------------------------------------------------------
  // parseFiles and collect

  /** One result of `parseFiles`: the group's name and path, and its html and
      css as the converters made them. */
  datatype Parsed<H, C> = Parsed(name: Option<string>, path: Option<string>, html: H, css: C)

  function Lookup(rec: map<string, string>, k: string): Option<string> {
    if k in rec then Some(rec[k]) else None
  }

  /** `entry.html || ''`: a missing field and an empty one both give ''. */
  function OrEmpty(rec: map<string, string>, k: string): (r: string)
    ensures k !in rec ==> r == ""
    ensures k in rec ==> r == rec[k]
  {
    if k in rec then rec[k] else ""
  }

  function ParseFiles<H, C>(toHtml: string -> H, toCss: string -> C, recs: seq<map<string, string>>): (r: seq<Parsed<H, C>>)
    ensures |r| == |recs|
    ensures forall i :: 0 <= i < |recs| ==>
              && r[i].name == Lookup(recs[i], "name") && r[i].path == Lookup(recs[i], "path")
              && ("html" !in recs[i] ==> r[i].html == toHtml(""))
              && ("css" !in recs[i] ==> r[i].css == toCss(""))
              && ("html" in recs[i] ==> r[i].html == toHtml(recs[i]["html"]))
              && ("css" in recs[i] ==> r[i].css == toCss(recs[i]["css"]))
  {
    seq(|recs|, i requires 0 <= i < |recs| => ParseOne(toHtml, toCss, recs[i]))
  }

  /** The object `parseFiles` yields for one paired entry. */
  function ParseOne<H, C>(toHtml: string -> H, toCss: string -> C, rec: map<string, string>): (p: Parsed<H, C>)
    ensures p.name == Lookup(rec, "name") && p.path == Lookup(rec, "path")
    ensures p.html == toHtml(OrEmpty(rec, "html")) && p.css == toCss(OrEmpty(rec, "css"))
  {
    Parsed(Lookup(rec, "name"), Lookup(rec, "path"), toHtml(OrEmpty(rec, "html")), toCss(OrEmpty(rec, "css")))
  }

  /** `collect`: every element, in the order the iteration produces them. */
  method Collect<T>(xs: seq<T>) returns (results: seq<T>)
    ensures results == xs
  {
    results := [];
    var i := 0;
    while i < |xs|
      invariant 0 <= i <= |xs| && results == xs[..i]
    {
      results := results + [xs[i]];
      i := i + 1;
    }
  }

  /** `parseDirectory` over an already walked directory. */
  method ParseDirectory<H, C>(read: string -> string, toHtml: string -> H, toCss: string -> C, files: seq<WalkedFile>)
      returns (r: Option<seq<Parsed<H, C>>>)
    ensures r.None? <==> exists i :: 0 <= i < |files| && '.' !in files[i].name
    ensures r.Some? ==> r.value == ParseFiles(toHtml, toCss, PairFiles(read, files).value)
  {
    var paired := PairFiles(read, files);
    if paired.None? {
      return None;
    }
    var all := Collect(ParseFiles(toHtml, toCss, paired.value));
    r := Some(all);
  }
}
