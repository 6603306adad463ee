/**
 * Absolute paths split into segments and resolved lexically, as the kernel
 * walks them when no symbolic link is involved.  Used to state where a path
 * that passes the read guard of app.py actually leads.
 */
module Paths {
  import opened Text

  /** The directory the service reads from and writes to. */
  const DataDir := "/data"

  /** The index of the first `/` in `s`, or `|s|` when there is none. */
  function SlashIndex(s: string): (i: nat)
    ensures i <= |s| && (i < |s| ==> s[i] == '/')
    ensures forall k :: 0 <= k < i ==> s[k] != '/'
  {
    if s == [] || s[0] == '/' then 0 else 1 + SlashIndex(s[1..])
  }

  /** `path.split("/")`: the pieces between slashes, empty ones included. */
  function Split(path: string): (segments: seq<string>)
    ensures segments != []
    decreases |path|
  {
    var i := SlashIndex(path);
    if i == |path| then [path] else [path[..i]] + Split(path[i + 1..])
  }

  /**
   * The directory names reached from `dirs` through `segments`: an empty
   * segment or "." stays put, ".." goes up (never above the root), and any
   * other name goes down into it.
   */
  function Walk(dirs: seq<string>, segments: seq<string>): seq<string>
    decreases segments
  {
    if segments == [] then dirs
    else if segments[0] == "" || segments[0] == "." then Walk(dirs, segments[1..])
    else if segments[0] == ".." then Walk(if dirs == [] then [] else dirs[..|dirs| - 1], segments[1..])
    else Walk(dirs + [segments[0]], segments[1..])
  }

  /** The names along the path from the root to what an absolute path names. */
  function Resolve(path: string): seq<string>
  {
    Walk([], Split(path))
  }

  /** An absolute path names `/data` or something below it. */
  predicate LeadsIntoDataDir(path: string)
  {
    var names := Resolve(path);
    names != [] && names[0] == "data"
  }

  /** Without "..", walking only goes down: what was reached stays a prefix. */
  lemma {:induction false} WalkKeepsPrefix(dirs: seq<string>, segments: seq<string>)
    requires ".." !in segments
    ensures |Walk(dirs, segments)| >= |dirs| && Walk(dirs, segments)[..|dirs|] == dirs
    decreases segments
  {
    if segments != [] {
      assert ".." !in segments[1..] by {
        assert forall k :: 0 <= k < |segments| - 1 ==> segments[1..][k] == segments[k + 1];
      }
      if segments[0] == "" || segments[0] == "." {
        WalkKeepsPrefix(dirs, segments[1..]);
      } else {
        WalkKeepsPrefix(dirs + [segments[0]], segments[1..]);
        assert (dirs + [segments[0]])[..|dirs|] == dirs;
      }
    }
  }

  /** A segment followed by a slash ends at that slash. */
  lemma {:induction false} SlashIndexAfter(segment: string, rest: string)
    requires '/' !in segment
    ensures SlashIndex(segment + "/" + rest) == |segment|
    decreases |segment|
  {
    var p := segment + "/" + rest;
    if segment != [] {
      assert p[0] == segment[0];
      assert p[1..] == segment[1..] + "/" + rest;
      SlashIndexAfter(segment[1..], rest);
    }
  }

  /** Splitting peels off one segment at a time. */
  lemma SplitSegment(segment: string, rest: string)
    requires '/' !in segment
    ensures Split(segment + "/" + rest) == [segment] + Split(rest)
  {
    var p := segment + "/" + rest;
    SlashIndexAfter(segment, rest);
    assert p[..|segment|] == segment && p[|segment| + 1..] == rest;
  }

  /** A string without a slash is one segment. */
  lemma {:induction false} SplitLast(segment: string)
    requires '/' !in segment
    ensures Split(segment) == [segment]
  {
    SlashIndexNone(segment);
  }

  /** Without a slash, the slash index is the length. */
  lemma {:induction false} SlashIndexNone(s: string)
    requires '/' !in s
    ensures SlashIndex(s) == |s|
  {
    if s != [] {
      assert '/' !in s[1..];
      SlashIndexNone(s[1..]);
    }
  }

  /** A path below a top-level directory splits into "", the directory's name, and the split of the rest. */
  lemma {:induction false} SplitBelow(dir: string, rest: string)
    requires '/' !in dir
    ensures Split("/" + dir + "/" + rest) == ["", dir] + Split(rest)
  {
    var inner := dir + "/" + rest;
    assert "/" + dir + "/" + rest == "" + "/" + inner;
    SplitSegment("", inner);
    SplitSegment(dir, rest);
  }

  /** A path below `/data/` splits into "", "data", and the split of the rest. */
  lemma SplitBelowDataDir(rest: string)
    ensures Split("/data/" + rest) == ["", "data"] + Split(rest)
  {
    assert "/data/" + rest == "/" + "data" + "/" + rest;
    SplitBelow("data", rest);
  }

  /** The data directory itself splits into an empty first segment and "data". */
  lemma SplitDataDir()
    ensures Split(DataDir) == ["", "data"]
  {
    assert DataDir == "" + "/" + "data";
    SplitSegment("", "data");
    SplitLast("data");
  }

  /** Going down into "data" and then through segments without "..", one stays below "data". */
  lemma WalkFromDataDir(tail: seq<string>)
    requires ".." !in tail
    ensures var names := Walk([], ["", "data"] + tail); names != [] && names[0] == "data"
  {
    var segments := ["", "data"] + tail;
    assert segments[1..] == ["data"] + tail;
    assert segments[1..][1..] == tail;
    assert Walk([], segments) == Walk([], ["data"] + tail);
    assert [] + ["data"] == ["data"];
    assert Walk([], ["data"] + tail) == Walk(["data"], tail);
    WalkKeepsPrefix(["data"], tail);
  }

  /**
   * A guard that keeps reads inside the data directory: the path is the
   * directory itself or lies below it, and none of its segments is "..".
   */
  predicate Confined(path: string)
  {
    (path == DataDir || StartsWith(path, DataDir + "/")) && ".." !in Split(path)
  }

  /** Every path the guard admits resolves to the data directory or below it. */
  lemma ConfinedLeadsIntoDataDir(path: string)
    requires Confined(path)
    ensures LeadsIntoDataDir(path)
  {
    if path == DataDir {
      SplitDataDir();
      assert Split(path) == ["", "data"] + [];
      WalkFromDataDir([]);
    } else {
      assert DataDir + "/" == "/data/";
      var rest := path[6..];
      assert path == "/data/" + rest;
      SplitBelowDataDir(rest);
      assert ".." !in Split(rest);
      WalkFromDataDir(Split(rest));
    }
  }

  /** A plain name: no slash, and neither "", "." nor "..". */
  predicate PlainName(name: string)
  {
    '/' !in name && name != "" && name != "." && name != ".."
  }

  /** `/data/../<name>` goes into the data directory and back out to `/<name>`. */
  lemma ResolveUpAndOut(name: string)
    requires PlainName(name)
    ensures Resolve("/data/../" + name) == [name]
  {
    SplitUpAndOut(name);
    WalkUpAndOut(name);
  }

  /** The segments of `/data/../<name>`. */
  lemma SplitUpAndOut(name: string)
    requires PlainName(name)
    ensures Split("/data/../" + name) == ["", "data", "..", name]
  {
    var rest := ".." + "/" + name;
    assert "/data/../" + name == "/data/" + rest;
    SplitBelowDataDir(rest);
    SplitSegment("..", name);
    SplitLast(name);
  }

  /** Walking down into "data", up again and down into `name`. */
  lemma WalkUpAndOut(name: string)
    requires PlainName(name)
    ensures Walk([], ["", "data", "..", name]) == [name]
  {
    var segments := ["", "data", "..", name];
    assert segments[1..] == ["data", "..", name] && segments[1..][1..] == ["..", name];
    assert segments[1..][1..][1..] == [name];
    assert Walk([], segments) == Walk([], ["data", "..", name]);
    assert [] + ["data"] == ["data"];
    assert Walk([], ["data", "..", name]) == Walk(["data"], ["..", name]);
    assert Walk(["data"], ["..", name]) == Walk([], [name]);
    assert [] + [name] == [name];
    assert Walk([], [name]) == Walk([name], []);
  }

  /** `/data<suffix>` names a sibling of the data directory. */
  lemma ResolveSibling(suffix: string)
    requires '/' !in suffix && suffix != ""
    ensures Resolve(DataDir + suffix) == [DataDir[1..] + suffix]
  {
    var path := DataDir + suffix;
    var name := DataDir[1..] + suffix;
    assert path == "" + "/" + name;
    assert '/' !in name by {
      assert '/' !in DataDir[1..];
    }
    SplitLast(name);
    SplitSegment("", name);
    var segments := ["", name];
    assert Split(path) == segments;
    assert segments[1..] == [name];
    assert name != "" && name != "." && name != "..";
    assert Walk([], segments) == Walk([], [name]);
    assert [] + [name] == [name];
    assert Walk([], [name]) == Walk([name], []);
  }
}
