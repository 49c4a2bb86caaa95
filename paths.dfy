/** Path helpers of `src/utils/index.ts`: separator rewriting, and the conversion between
    workspace-relative and full paths. */
module Paths {
  import opened Text
  import opened Wrappers

  /** `pathToPosix`: split on the platform separator, join with `/`. */
  function PathToPosix(path: string, sep: char): string {
    Join(Split(path, sep), "/")
  }

  /** `pathToWin32`: split on `\` and join with `\` again. */
  function PathToWin32(path: string): string {
    Join(Split(path, '\\'), "\\")
  }

  /** `pathToPosix` rewrites each platform separator to `/` and changes nothing else. */
  lemma PathToPosixReplaces(path: string, sep: char)
    ensures PathToPosix(path, sep) == ReplaceChar(path, sep, '/')
    ensures |PathToPosix(path, sep)| == |path|
    ensures sep != '/' ==> sep !in PathToPosix(path, sep)
    ensures sep == '/' ==> PathToPosix(path, sep) == path
  {
    JoinSplit(path, sep, '/');
    var r := PathToPosix(path, sep);
    if sep == '/' {
      assert forall k :: 0 <= k < |path| ==> r[k] == path[k];
    }
  }

  /** `pathToWin32` splits and joins on the same separator, so it is the identity. */
  lemma PathToWin32Identity(path: string)
    ensures PathToWin32(path) == path
  {
    JoinSplit(path, '\\', '\\');
    var r := PathToWin32(path);
    assert forall k :: 0 <= k < |path| ==> r[k] == path[k];
  }

  /** `getWorkspacePath`: the first workspace folder, or the empty string. */
  function WorkspacePath(workspace: Option<string>): string {
    workspace.GetOr("")
  }

  /** `path.join(base, rel)` for already-normalised paths. */
  function JoinPath(base: string, rel: string): string {
    if base == "" then rel else if rel == "" then base else base + "/" + rel
  }

  /** `path.relative(base, full)` for a full path inside `base`; other paths are kept as given. */
  function RelativePath(base: string, full: string): string {
    if base == "" then full
    else if full == base then ""
    else if StartsWith(full, base + "/") then full[|base| + 1..]
    else full
  }

  /** Relativising a joined path gives back the relative part. */
  lemma RelativeOfJoin(base: string, rel: string)
    ensures RelativePath(base, JoinPath(base, rel)) == rel
  {
    if base != "" && rel != "" {
      var full := base + "/" + rel;
      assert full[..|base + "/"|] == base + "/";
      assert full != base by { assert |full| > |base|; }
      assert full[|base| + 1..] == rel;
    }
  }

  /** `full` lies in `base`: it is `base` itself or strictly below it (any path lies in
      the empty base). */
  predicate Within(base: string, full: string) {
    base == "" || full == base || (StartsWith(full, base + "/") && |full| > |base| + 1)
  }

  /** Joining a relativised path inside the base gives back the full path. */
  lemma JoinOfRelative(base: string, full: string)
    requires Within(base, full)
    ensures JoinPath(base, RelativePath(base, full)) == full
  {
    if base != "" && full != base {
      assert full == full[..|base| + 1] + full[|base| + 1..];
    }
  }

  /** The base both conversions use: `basePath` when it is a non-empty string, otherwise
      the workspace path. */
  function BaseOf(basePath: Option<string>, workspace: Option<string>): string {
    if basePath.Some? && basePath.value != "" then basePath.value else WorkspacePath(workspace)
  }

  /** `relativePathtoFull(aPath, basePath?)`. */
  function RelativePathToFull(path: string, basePath: Option<string>, workspace: Option<string>): string {
    JoinPath(BaseOf(basePath, workspace), path)
  }

  /** `fullPathtoRelative(aPath, basePath?)`. */
  function FullPathToRelative(path: string, basePath: Option<string>, workspace: Option<string>): string {
    RelativePath(BaseOf(basePath, workspace), path)
  }

  /** A relative path made full and relative again is unchanged; a full path inside the
      base made relative and full again is unchanged. */
  lemma PathConversionsInverse(path: string, basePath: Option<string>, workspace: Option<string>)
    ensures FullPathToRelative(RelativePathToFull(path, basePath, workspace), basePath, workspace) == path
    ensures Within(BaseOf(basePath, workspace), path) ==>
              RelativePathToFull(FullPathToRelative(path, basePath, workspace), basePath, workspace) == path
  {
    var base := BaseOf(basePath, workspace);
    RelativeOfJoin(base, path);
    if Within(base, path) {
      JoinOfRelative(base, path);
    }
  }
}
