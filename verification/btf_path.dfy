/** Turning a dotted path into the padded segment list the resolver walks
    (`buildPathFromString`, `addPaddingOnNestedPtr`), and the composition the
    path-equality tests compare against the production resolver
    (`buildExpectedBTFConfig`). */
module BtfPath {
  import opened Wrappers
  import opened BtfTypes
  import opened BtfResolve

  /** Concatenate the parts with `sep` between neighbours. */
  function Join(parts: seq<string>, sep: char): string
    requires |parts| >= 1
  {
    if |parts| == 1 then parts[0] else parts[0] + [sep] + Join(parts[1..], sep)
  }

  /** `strings.Split(s, sep)` for a one-character separator: the pieces between
      the separators, so `n` separators give `n + 1` pieces and `""` gives `[""]`. */
  function Split(s: string, sep: char): (r: seq<string>)
    ensures |r| >= 1
    ensures Join(r, sep) == s
    ensures forall k :: 0 <= k < |r| ==> sep !in r[k]
  {
    if s == [] then [""]
    else
      var rest := Split(s[1..], sep);
      if s[0] == sep then [""] + rest
      else
        assert Join(rest, sep) == rest[0] + (if |rest| == 1 then [] else [sep] + Join(rest[1..], sep));
        [[s[0]] + rest[0]] + rest[1..]
  }

  /** Splitting undoes joining pieces that hold no separator. */
  lemma {:induction false} SplitJoin(parts: seq<string>, sep: char)
    requires |parts| >= 1
    requires forall k :: 0 <= k < |parts| ==> sep !in parts[k]
    ensures Split(Join(parts, sep), sep) == parts
    decreases |Join(parts, sep)|, |parts|
  {
    var s := Join(parts, sep);
    if parts[0] == [] {
      if |parts| > 1 {
        assert s == [sep] + Join(parts[1..], sep);
        assert s[1..] == Join(parts[1..], sep);
        SplitJoin(parts[1..], sep);
      }
    } else {
      var c := parts[0][0];
      var shorter := [parts[0][1..]] + parts[1..];
      assert Join(shorter, sep) == s[1..] by {
        if |parts| > 1 {
          assert shorter[1..] == parts[1..];
        }
      }
      assert sep !in parts[0][1..];
      SplitJoin(shorter, sep);
      assert [c] + shorter[0] == parts[0];
      assert shorter[1..] == parts[1..];
      assert s[0] == c && c != sep;
    }
  }

  /** `addPaddingOnNestedPtr`: one empty segment in front per directly nested
      pointer layer of `ty`; the original segments follow unchanged. */
  function AddPaddingOnNestedPtr(g: Graph, ty: TypeId, path: seq<string>): (r: seq<string>)
    requires WellFormed(g) && ty < |g|
    ensures |r| == PointerDepth(g, ty) + |path|
    ensures forall k :: 0 <= k < PointerDepth(g, ty) ==> r[k] == ""
    ensures r[PointerDepth(g, ty)..] == path
    decreases ChainRank(g, ty)
  {
    if g[ty].Pointer? then
      LinkRankDecreases(g, ty);
      AddPaddingOnNestedPtr(g, g[ty].target, [""] + path)
    else path
  }

  /** `buildPathFromString`. A path longer than the array is reported, naming the
      dotted path and the maximum; the report does not stop the caller, so the
      padded path is returned either way. */
  function BuildPathFromString(g: Graph, root: TypeId, pathStr: string): (r: (seq<string>, Option<BtfError>))
    requires WellFormed(g) && root < |g|
    ensures |r.0| == PointerDepth(g, root) + |Split(pathStr, '.')|
    ensures forall k :: 0 <= k < PointerDepth(g, root) ==> r.0[k] == ""
    ensures Join(r.0[PointerDepth(g, root)..], '.') == pathStr
    ensures r.1.Some? <==> |r.0| > MaxBTFArgDepth
    ensures r.1.Some? ==> r.1.value == PathTooDeep(pathStr, MaxBTFArgDepth)
  {
    var path := AddPaddingOnNestedPtr(g, root, Split(pathStr, '.'));
    if |path| > MaxBTFArgDepth then (path, Some(PathTooDeep(pathStr, MaxBTFArgDepth)))
    else (path, None)
  }

  /** `buildExpectedBTFConfig`: the reference descriptors for a dotted path. A
      path the depth check reports never resolves; a resolved one fills the
      array. */
  function BuildExpectedBTFConfig(g: Graph, root: TypeId, pathStr: string): (r: Result<seq<ConfigBTFArg>, BtfError>)
    requires WellFormed(g) && root < |g|
    ensures r.Success? ==> |r.value| == MaxBTFArgDepth
    ensures BuildPathFromString(g, root, pathStr).1.Some? ==> r.Failure?
  {
    var path := BuildPathFromString(g, root, pathStr).0;
    ManualResolveLayout(g, root, path);
    ManuallyResolveBTFPath(g, root, path)
  }

  /** `buildExpectedBTFConfig` as the test helper computes it, with the literal
      resolver. Whatever it resolves, the corrected reference resolves to the
      same descriptors. */
  function BuildExpectedBTFConfigAsWritten(g: Graph, root: TypeId, pathStr: string): (r: Result<seq<ConfigBTFArg>, BtfError>)
    requires WellFormed(g) && root < |g|
    ensures r.Success? ==> BuildExpectedBTFConfig(g, root, pathStr) == r
    ensures BuildPathFromString(g, root, pathStr).1.Some? ==> r.Failure?
  {
    var path := BuildPathFromString(g, root, pathStr).0;
    ManualResolveAsWrittenRefines(g, root, path);
    ManuallyResolveBTFPathAsWritten(g, root, path)
  }

  /** The depth check and the resolver agree: a path reported as too deep never
      resolves, and a path that passes the check never indexes past the array. */
  lemma DepthReportMatchesResolution(g: Graph, root: TypeId, pathStr: string)
    requires WellFormed(g) && root < |g|
    ensures var (path, report) := BuildPathFromString(g, root, pathStr);
            var r := BuildExpectedBTFConfig(g, root, pathStr);
            && (report.Some? ==> r.Failure?)
            && (report.None? ==> !(r.Failure? && r.error.IndexOutOfRange?))
  {
    var path := BuildPathFromString(g, root, pathStr).0;
    ResolveDepthBound(g, root, path);
  }

  /** The same agreement for the helper as written. */
  lemma DepthReportMatchesResolutionAsWritten(g: Graph, root: TypeId, pathStr: string)
    requires WellFormed(g) && root < |g|
    ensures var (path, report) := BuildPathFromString(g, root, pathStr);
            var r := BuildExpectedBTFConfigAsWritten(g, root, pathStr);
            && (report.Some? ==> r.Failure?)
            && (report.None? ==> !(r.Failure? && r.error.IndexOutOfRange?))
  {
    var path := BuildPathFromString(g, root, pathStr).0;
    ResolveDepthBoundAsWritten(g, root, path);
  }

  /** A resolved dotted path fills exactly one slot per padded segment: the
      root's pointer layers first, then one per dotted component; every later
      slot is unused. */
  lemma ExpectedConfigLayout(g: Graph, root: TypeId, pathStr: string)
    requires WellFormed(g) && root < |g|
    ensures var r := BuildExpectedBTFConfig(g, root, pathStr);
            var n := PointerDepth(g, root) + |Split(pathStr, '.')|;
            r.Success? ==>
              && n <= MaxBTFArgDepth
              && |r.value| == MaxBTFArgDepth
              && Layout(r.value, n)
              && forall j :: 0 <= j < PointerDepth(g, root) ==> r.value[j] == PointerSlot
  {
    var path := BuildPathFromString(g, root, pathStr).0;
    ManualResolveLayout(g, root, path);
  }
}
