/** Node's POSIX `path.resolve` with one argument, as `installLanguage`
    calls it on the bundle path (`resolvePath(bundle)` in src/cli.ts). A
    relative path is put under the process's working directory, which is an
    input here. Then the path is normalised segment by segment: empty and `.`
    segments vanish, and `..` removes the segment before it. */
module Paths {
  import opened Strings

  /** A path that starts at the root. */
  predicate IsAbsolute(p: string) {
    |p| > 0 && p[0] == '/'
  }

  /** A segment that normalisation keeps as it is. */
  predicate Plain(segment: string) {
    segment != "" && segment != "." && segment != ".." && '/' !in segment
  }

  /** A resolved absolute path: the root, or the root followed by plain
      segments. */
  predicate Normal(p: string) {
    p == "/" || (|p| > 1 && p[0] == '/' && forall k :: 0 <= k < |Split(p[1..], '/')| ==> Plain(Split(p[1..], '/')[k]))
  }

  /** The segment-level effect of `normalizeString`: `done` holds the
      segments kept so far. A `..` removes the last kept segment. With nothing
      left to remove it is dropped at the root and kept in a relative path
      (`aboveRoot`). */
  function NormaliseSegments(done: seq<string>, pieces: seq<string>, aboveRoot: bool): (r: seq<string>)
    ensures !aboveRoot && (forall k :: 0 <= k < |done| ==> Plain(done[k]))
            && (forall k :: 0 <= k < |pieces| ==> '/' !in pieces[k])
            ==> forall k :: 0 <= k < |r| ==> Plain(r[k])
    decreases |pieces|
  {
    if |pieces| == 0 then done
    else
      var p := pieces[0];
      if p == "" || p == "." then NormaliseSegments(done, pieces[1..], aboveRoot)
      else if p == ".." then
        if |done| > 0 && done[|done| - 1] != ".." then NormaliseSegments(done[..|done| - 1], pieces[1..], aboveRoot)
        else if aboveRoot then NormaliseSegments(done + [".."], pieces[1..], aboveRoot)
        else NormaliseSegments(done, pieces[1..], aboveRoot)
      else NormaliseSegments(done + [p], pieces[1..], aboveRoot)
  }

  /** `path.resolve(p)` run in the working directory `cwd`. */
  function ResolvePath(cwd: string, p: string): (r: string)
    ensures IsAbsolute(p) || IsAbsolute(cwd) ==> Normal(r)
  {
    var full := if IsAbsolute(p) then p else if p == "" then cwd else cwd + "/" + p;
    var segments := NormaliseSegments([], Split(full, '/'), !IsAbsolute(full));
    if IsAbsolute(full) then
      if |segments| == 0 then "/"
      else
        SplitJoin(segments, '/');
        "/" + Join(segments, '/')
    else
      var norm := Join(segments, '/');
      if norm == "" then "." else norm
  }

  /** Plain segments pass normalisation unchanged. */
  lemma {:induction false} NormalisePlainIdentity(done: seq<string>, pieces: seq<string>, aboveRoot: bool)
    requires forall k :: 0 <= k < |pieces| ==> Plain(pieces[k])
    ensures NormaliseSegments(done, pieces, aboveRoot) == done + pieces
    decreases |pieces|
  {
    if |pieces| > 0 {
      NormalisePlainIdentity(done + [pieces[0]], pieces[1..], aboveRoot);
      assert done + [pieces[0]] + pieces[1..] == done + pieces;
    }
  }

  /** Normalising a concatenation continues from where the first part left off. */
  lemma {:induction false} NormaliseAppend(done: seq<string>, a: seq<string>, b: seq<string>, aboveRoot: bool)
    ensures NormaliseSegments(done, a + b, aboveRoot)
            == NormaliseSegments(NormaliseSegments(done, a, aboveRoot), b, aboveRoot)
    decreases |a|
  {
    if |a| == 0 {
      assert a + b == b;
    } else {
      assert (a + b)[0] == a[0] && (a + b)[1..] == a[1..] + b;
      var p := a[0];
      if p == "" || p == "." {
        NormaliseAppend(done, a[1..], b, aboveRoot);
      } else if p == ".." {
        if |done| > 0 && done[|done| - 1] != ".." {
          NormaliseAppend(done[..|done| - 1], a[1..], b, aboveRoot);
        } else if aboveRoot {
          NormaliseAppend(done + [".."], a[1..], b, aboveRoot);
        } else {
          NormaliseAppend(done, a[1..], b, aboveRoot);
        }
      } else {
        NormaliseAppend(done + [p], a[1..], b, aboveRoot);
      }
    }
  }

  /** A path that is already resolved resolves to itself, whatever the
      working directory. */
  lemma ResolveNormalIsIdentity(cwd: string, p: string)
    requires Normal(p)
    ensures ResolvePath(cwd, p) == p
  {
    if p == "/" {
      assert Split(p, '/') == ["", ""];
    } else {
      var rest := Split(p[1..], '/');
      assert Split(p, '/') == [""] + rest;
      assert ([""] + rest)[1..] == rest;
      assert NormaliseSegments([], [""] + rest, false) == NormaliseSegments([], rest, false);
      NormalisePlainIdentity([], rest, false);
      assert [] + rest == rest;
      JoinSplit(p[1..], '/');
      assert p == "/" + p[1..];
    }
  }

  /** Resolving twice is resolving once. */
  lemma ResolveIdempotent(cwd: string, p: string)
    requires IsAbsolute(p) || IsAbsolute(cwd)
    ensures ResolvePath(cwd, ResolvePath(cwd, p)) == ResolvePath(cwd, p)
  {
    ResolveNormalIsIdentity(cwd, ResolvePath(cwd, p));
  }

  /** A relative path of plain segments lands directly under a resolved
      working directory. */
  lemma ResolveRelative(cwd: string, p: string)
    requires Normal(cwd) && cwd != "/"
    requires |p| > 0 && forall k :: 0 <= k < |Split(p, '/')| ==> Plain(Split(p, '/')[k])
    ensures ResolvePath(cwd, p) == cwd + "/" + p
  {
    var full := cwd + "/" + p;
    var tail := cwd[1..] + "/" + p;
    assert full == "/" + tail && full[1..] == tail;
    SplitAppendSeparator(cwd[1..], p, '/');
    var pieces := Split(tail, '/');
    assert Split(full, '/') == [""] + pieces;
    assert ([""] + pieces)[1..] == pieces;
    assert NormaliseSegments([], [""] + pieces, false) == NormaliseSegments([], pieces, false);
    NormalisePlainIdentity([], pieces, false);
    assert [] + pieces == pieces;
    JoinSplit(tail, '/');
  }

  /** The segments of a relative path put under `cwd`. */
  lemma SegmentsUnder(cwd: string, q: string)
    ensures Split(cwd + "/" + q, '/') == Split(cwd, '/') + Split(q, '/')
  {
    SplitAppendSeparator(cwd, q, '/');
  }

  /** A leading `./` changes nothing: `./build/bundle.js` and
      `build/bundle.js` resolve alike. */
  lemma ResolveDropsDot(cwd: string, q: string)
    requires q != "" && !IsAbsolute(q)
    ensures ResolvePath(cwd, "./" + q) == ResolvePath(cwd, q)
  {
    var a := Split(cwd, '/');
    var b := Split(q, '/');
    assert "./" + q == "." + "/" + q;
    SegmentsUnder(".", q);
    SplitNoSeparator(".", '/');
    SegmentsUnder(cwd, "./" + q);
    SegmentsUnder(cwd, q);
    assert cwd + "/" + ("./" + q) == cwd + "/" + "./" + q;
    var abs := IsAbsolute(cwd + "/" + q);
    assert IsAbsolute(cwd + "/" + ("./" + q)) == abs;
    assert a + (["."] + b) == a + ["."] + b;
    NormaliseAppend([], a + ["."], b, !abs);
    NormaliseAppend([], a, ["."], !abs);
    NormaliseAppend([], a, b, !abs);
  }

  /** The segments of `name/../q`. */
  lemma ParentSegments(name: string, q: string)
    requires '/' !in name
    ensures Split(name + "/../" + q, '/') == [name, ".."] + Split(q, '/')
  {
    assert name + "/../" + q == name + "/" + (".." + "/" + q);
    SegmentsUnder("..", q);
    SplitNoSeparator("..", '/');
    SegmentsUnder(name, ".." + "/" + q);
    SplitNoSeparator(name, '/');
    assert [name] + ([".."] + Split(q, '/')) == [name, ".."] + Split(q, '/');
  }

  /** A segment followed by `..` cancels out. */
  lemma ResolveParentCancels(cwd: string, name: string, q: string)
    requires Plain(name) && q != "" && !IsAbsolute(q)
    ensures ResolvePath(cwd, name + "/../" + q) == ResolvePath(cwd, q)
  {
    var a := Split(cwd, '/');
    var b := Split(q, '/');
    var p := name + "/../" + q;
    ParentSegments(name, q);
    SegmentsUnder(cwd, p);
    SegmentsUnder(cwd, q);
    assert (cwd + "/" + p)[0] == (cwd + "/" + q)[0];
    var abs := IsAbsolute(cwd + "/" + q);
    assert a + ([name, ".."] + b) == a + [name, ".."] + b;
    NormaliseAppend([], a + [name, ".."], b, !abs);
    NormaliseAppend([], a, [name, ".."], !abs);
    NormaliseAppend([], a, b, !abs);
    var d := NormaliseSegments([], a, !abs);
    assert NormaliseSegments(d, [name, ".."], !abs) == d by {
      assert NormaliseSegments(d, [name, ".."], !abs) == NormaliseSegments(d + [name], [".."], !abs);
      assert (d + [name])[..|d + [name]| - 1] == d;
    }
  }
}
