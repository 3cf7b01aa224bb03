/**
 * The naming rules of the loader: how the remote name of an artifact is taken
 * from a local path (Rust's `Path::file_name` and `Path::file_stem` on Unix
 * paths) and how converted artifacts are named (`format!("{}.bin")`,
 * `format!("{}.dtbo")`).
 */
module Paths {
  import opened Common

  /** A component `Path::file_name` can return: non-empty, without a
      separator, and neither `.` nor `..`. */
  predicate IsPlainName(s: string) {
    s != "" && s != "." && s != ".." && '/' !in s
  }

  /** Rust's `str::ends_with`. */
  predicate EndsWith(s: string, suffix: string) {
    |suffix| <= |s| && s[|s| - |suffix|..] == suffix
  }

  /** The text between separators, left to right: a path holding k
      separators has k + 1 segments, some of them possibly empty. */
  function Segments(path: string): (r: seq<string>)
    ensures |r| > 0
    decreases |path|
  {
    if path == [] then [""]
    else
      var init := Segments(path[..|path| - 1]);
      var c := path[|path| - 1];
      if c == '/' then init + [""]
      else init[..|init| - 1] + [init[|init| - 1] + [c]]
  }

  /** The segments that name something. Empty segments (repeated or trailing
      separators, the root) and `.` segments are dropped, as
      `Path::components` drops them. */
  function Components(segs: seq<string>): seq<string> {
    if segs == [] then []
    else
      var init := Components(segs[..|segs| - 1]);
      var last := segs[|segs| - 1];
      if last == "" || last == "." then init else init + [last]
  }

  /** `Path::file_name`: the final component, or None when the path has
      none (empty, the root, only `.`) or ends in `..`. */
  function FileName(path: string): (r: Option<string>)
    ensures r.Some? ==> IsPlainName(r.value)
  {
    var segs := Segments(path);
    var cs := Components(segs);
    SegmentsHaveNoSeparator(path);
    ComponentsAreNames(segs);
    if cs == [] || cs[|cs| - 1] == ".." then None else Some(cs[|cs| - 1])
  }

  /** The index of the last `.` of `s`, if any. */
  function LastDot(s: string): (r: Option<nat>)
    ensures r.Some? ==> r.value < |s| && s[r.value] == '.'
  {
    if s == [] then None
    else if s[|s| - 1] == '.' then Some(|s| - 1)
    else LastDot(s[..|s| - 1])
  }

  /** No segment holds a separator. */
  lemma {:induction false} SegmentsHaveNoSeparator(path: string)
    ensures forall i :: 0 <= i < |Segments(path)| ==> '/' !in Segments(path)[i]
    decreases |path|
  {
    if path != [] {
      var init := path[..|path| - 1];
      SegmentsHaveNoSeparator(init);
      var a := Segments(init);
      var c := path[|path| - 1];
      if c != '/' {
        var last := a[|a| - 1] + [c];
        assert forall x :: x in last ==> x in a[|a| - 1] || x == c;
      }
    }
  }

  /** Every component is a segment that names something. */
  lemma {:induction false} ComponentsAreNames(segs: seq<string>)
    ensures forall i :: 0 <= i < |Components(segs)| ==>
      Components(segs)[i] in segs && Components(segs)[i] != "" && Components(segs)[i] != "."
    decreases |segs|
  {
    if segs != [] {
      var init := segs[..|segs| - 1];
      ComponentsAreNames(init);
      assert forall x :: x in init ==> x in segs;
    }
  }

  /** The dot `LastDot` finds is the last one, and None means there is none. */
  lemma {:induction false} LastDotIsLast(s: string)
    ensures LastDot(s).Some? ==> forall j :: LastDot(s).value < j < |s| ==> s[j] != '.'
    ensures LastDot(s).None? ==> forall j :: 0 <= j < |s| ==> s[j] != '.'
    decreases |s|
  {
    if s != [] && s[|s| - 1] != '.' {
      LastDotIsLast(s[..|s| - 1]);
    }
  }

  /** The stem of a file name as `Path::file_stem` takes it: everything
      before the last `.`, unless that dot is the first character (a name
      such as `.dts` is its own stem) or there is no dot at all. */
  function Stem(name: string): (r: string)
    ensures |r| <= |name| && r == name[..|r|]
    ensures name != "" ==> r != ""
  {
    match LastDot(name)
    case None => name
    case Some(i) => if i == 0 then name else name[..i]
  }

  /** `Path::file_stem`. */
  function FileStem(path: string): (r: Option<string>)
    ensures r.Some? <==> FileName(path).Some?
    ensures r.Some? ==>
      r.value != "" && |r.value| <= |FileName(path).value| && r.value == FileName(path).value[..|r.value|]
  {
    match FileName(path)
    case None => None
    case Some(n) => Some(Stem(n))
  }

  /** The remote name of the image converted from a bitstream. */
  function ConvertedBinName(bitstreamName: string): (r: string)
    ensures |r| == |bitstreamName| + 4 && r[..|bitstreamName|] == bitstreamName && EndsWith(r, ".bin")
  {
    bitstreamName + ".bin"
  }

  /** The remote name of an overlay compiled from a device-tree source:
      the source's file name (useStem false) or its stem (useStem true),
      followed by `.dtbo`. */
  function OverlayName(dtsPath: string, useStem: bool): (r: Option<string>)
    ensures r.Some? <==> FileName(dtsPath).Some?
    ensures r.Some? ==>
      var n := FileName(dtsPath).value;
      && |r.value| > 5 && EndsWith(r.value, ".dtbo")
      && var base := r.value[..|r.value| - 5];
         |base| <= |n| && base == n[..|base|] && (!useStem ==> base == n)
  {
    var base := if useStem then FileStem(dtsPath) else FileName(dtsPath);
    match base
    case None => None
    case Some(b) => Some(b + ".dtbo")
  }

  /** Appending separator-free text to a path extends its last segment and
      leaves the others alone. */
  lemma {:induction false} LastSegmentAppend(q: string, s: string)
    requires '/' !in s
    ensures var a := Segments(q); var b := Segments(q + s);
      |b| == |a| && b[..|b| - 1] == a[..|a| - 1] && b[|b| - 1] == a[|a| - 1] + s
    decreases |s|
  {
    if s == [] {
      assert q + s == q;
    } else {
      var s' := s[..|s| - 1];
      LastSegmentAppend(q, s');
      assert (q + s)[..|q + s| - 1] == q + s';
      assert (q + s)[|q + s| - 1] == s[|s| - 1];
      assert Segments(q)[|Segments(q)| - 1] + s' + [s[|s| - 1]] == Segments(q)[|Segments(q)| - 1] + s;
    }
  }

  /** A separator adds one empty segment. */
  lemma SegmentsWithSeparator(q: string)
    ensures Segments(q + "/") == Segments(q) + [""]
  {
    assert (q + "/")[..|q|] == q;
  }

  /** A final segment that names something is the file name's candidate. */
  lemma ComponentsSnoc(segs: seq<string>, last: string)
    ensures Components(segs + [last]) ==
      if last == "" || last == "." then Components(segs) else Components(segs) + [last]
  {
    assert (segs + [last])[..|segs|] == segs;
  }

  /** A plain name is its own file name. */
  lemma FileNameOfPlainName(n: string)
    requires IsPlainName(n)
    ensures FileName(n) == Some(n)
  {
    LastSegmentAppend("", n);
    assert "" + n == n;
    assert Segments(n) == [n];
    ComponentsSnoc([], n);
  }

  /** The file name of `dir/n` is `n`, whatever `dir` is. */
  lemma FileNameOfJoin(dir: string, n: string)
    requires IsPlainName(n)
    ensures FileName(dir + "/" + n) == Some(n)
  {
    SegmentsWithSeparator(dir);
    LastSegmentAppend(dir + "/", n);
    var a := Segments(dir + "/");
    var segs := Segments(dir + "/" + n);
    assert a[..|a| - 1] == Segments(dir) && a[|a| - 1] + n == n;
    assert segs == segs[..|segs| - 1] + [segs[|segs| - 1]];
    assert segs == Segments(dir) + [n];
    ComponentsSnoc(Segments(dir), n);
  }

  /** Trailing separators are ignored. */
  lemma FileNameIgnoresTrailingSeparator(path: string)
    ensures FileName(path + "/") == FileName(path)
  {
    SegmentsWithSeparator(path);
    ComponentsSnoc(Segments(path), "");
  }

  /** The empty path and the root have no file name. */
  lemma NoFileNameAtRoot()
    ensures FileName("") == None
    ensures FileName("/") == None
  {
    assert Segments("") == [""];
    ComponentsSnoc([], "");
    SegmentsWithSeparator("");
    assert "" + "/" == "/";
    ComponentsSnoc([""], "");
  }

  /** A path ending in `..` has no file name. */
  lemma NoFileNameOfParent(dir: string)
    ensures FileName(dir + "/..") == None
  {
    SegmentsWithSeparator(dir);
    LastSegmentAppend(dir + "/", "..");
    var a := Segments(dir + "/");
    var segs := Segments(dir + "/" + "..");
    assert a[..|a| - 1] == Segments(dir) && a[|a| - 1] + ".." == "..";
    assert segs == segs[..|segs| - 1] + [segs[|segs| - 1]];
    assert segs == Segments(dir) + [".."];
    ComponentsSnoc(Segments(dir), "..");
    assert dir + "/.." == dir + "/" + "..";
  }

  /** A path that ends in a separator-free suffix whose last character is
      neither `.` nor `/` always has a file name, and that file name ends
      with the suffix. So the `.dts` and `.bit` paths the workflows test for
      never fail to name. */
  lemma FileNameOfSuffixedPath(path: string, suffix: string)
    requires EndsWith(path, suffix)
    requires suffix != [] && '/' !in suffix && suffix[|suffix| - 1] != '.'
    ensures FileName(path).Some?
    ensures EndsWith(FileName(path).value, suffix)
  {
    var q := path[..|path| - |suffix|];
    assert path == q + suffix;
    LastSegmentAppend(q, suffix);
    var a := Segments(q);
    var b := Segments(path);
    var last := a[|a| - 1] + suffix;
    assert b == b[..|b| - 1] + [last];
    assert last[|last| - 1] == suffix[|suffix| - 1];
    assert last != "" && last != "." && last != "..";
    ComponentsSnoc(b[..|b| - 1], last);
    assert FileName(path) == Some(last);
    assert last[|last| - |suffix|..] == suffix;
  }

  /** The stem drops exactly the final extension when something precedes
      its dot. */
  lemma StemOfExtension(p: string, ext: string)
    requires p != [] && '.' !in ext
    ensures Stem(p + "." + ext) == p
  {
    var s := p + "." + ext;
    assert s[|p|] == '.';
    var d := LastDot(s);
    LastDotIsLast(s);
    assert d.Some?;
    assert forall j :: |p| < j < |s| ==> s[j] == ext[j - |p| - 1];
    assert d.value == |p|;
    assert s[..|p|] == p;
  }

  /** A bare extension is its own stem. */
  lemma StemOfBareExtension(ext: string)
    requires '.' !in ext
    ensures Stem("." + ext) == "." + ext
  {
    var s := "." + ext;
    var d := LastDot(s);
    LastDotIsLast(s);
    assert s[0] == '.';
    assert d.Some?;
    assert forall j :: 0 < j < |s| ==> s[j] == ext[j - 1];
    assert d.value == 0;
  }

  /** The image converted from a bitstream keeps the bitstream's whole
      name: `design.bit` becomes `design.bit.bin`, never `design.bin`, and a
      second conversion would not reproduce the first name. */
  lemma ConvertedBinNameKeepsExtension(p: string)
    ensures ConvertedBinName(p + ".bit") == p + ".bit.bin"
    ensures ConvertedBinName(p + ".bit") != p + ".bin"
    ensures ConvertedBinName(ConvertedBinName(p)) != ConvertedBinName(p)
  {
    assert |ConvertedBinName(p + ".bit")| == |p| + 8;
  }

  /** The two ways of naming an overlay compiled from `P.dts`: by file name
      it is `P.dts.dtbo`, by stem `P.dtbo` (a bare `.dts` keeps its name as
      stem). Both always exist for a path ending in `.dts`. */
  lemma DtsOverlayNames(dtsPath: string)
    requires EndsWith(dtsPath, ".dts")
    ensures FileName(dtsPath).Some?
    ensures var n := FileName(dtsPath).value;
      && EndsWith(n, ".dts")
      && OverlayName(dtsPath, false) == Some(n + ".dtbo")
      && OverlayName(dtsPath, true) == Some((if |n| > 4 then n[..|n| - 4] else n) + ".dtbo")
  {
    FileNameOfSuffixedPath(dtsPath, ".dts");
    var n := FileName(dtsPath).value;
    var p := n[..|n| - 4];
    assert n == p + "." + "dts";
    if |n| > 4 {
      StemOfExtension(p, "dts");
    } else {
      assert n == "." + "dts";
      StemOfBareExtension("dts");
    }
  }
}
