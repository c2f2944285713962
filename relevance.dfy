/**
 * The relevance filter of the watcher: decides whether a change to a path,
 * taken relative to the watched repository root, should count toward a sync.
 *
 * A path is the sequence of components Rust's `Path::components` yields,
 * in which "." can only come first. Components "." and ".." are the
 * non-normal ones: a path ending in one of them has no file name.
 */
module Relevance {
  import opened Wrappers

  type Path = seq<string>

  /** Generated artifacts whose changes never count. */
  const IndexPage: string := "index.html"
  const ContentsIndex: string := "contents.json"
  /** The directory the watcher writes its own log files into. */
  const LogsDir: string := "logs"

  predicate IsNormal(component: string) {
    component != "." && component != ".."
  }

  /** The file name of a path: its last component, when that is a normal one. */
  function FileName(p: Path): (name: Option<string>)
    ensures name.Some? <==> p != [] && IsNormal(p[|p| - 1])
    ensures name.Some? ==> name.value == p[|p| - 1]
  {
    if p != [] && IsNormal(p[|p| - 1]) then Some(p[|p| - 1]) else None
  }

  /** The parent of a path; the empty path has none. */
  function Parent(p: Path): (q: Option<Path>)
    ensures q.None? <==> p == []
    ensures q.Some? ==> q.value + [p[|p| - 1]] == p
  {
    if p == [] then None else Some(p[..|p| - 1])
  }

  /**
   * The specification of the filter: a path is relevant unless its file name
   * is one of the generated artifacts or one of its components is the logs
   * directory.
   */
  predicate Relevant(p: Path) {
    var name := FileName(p).GetOr("");
    name != IndexPage && name != ContentsIndex && LogsDir !in p
  }

  /**
   * The filter as the watcher runs it: look at the file name first, then walk
   * the ancestors of the path, the path itself included, with an early return
   * as soon as one of them is named like the logs directory.
   */
  method CheckIfRelevant(p: Path) returns (relevant: bool)
    ensures relevant == Relevant(p)
  {
    var filename := FileName(p).GetOr("");
    if filename == IndexPage || filename == ContentsIndex {
      return false;
    }
    var ancestor := Some(p);
    while ancestor.Some?
      invariant ancestor.Some? ==> ancestor.value == p[..|ancestor.value|]
      invariant forall i :: (if ancestor.Some? then |ancestor.value| else 0) <= i < |p| ==> p[i] != LogsDir
      decreases if ancestor.Some? then |ancestor.value| + 1 else 0
    {
      var a := ancestor.value;
      var part := FileName(a);
      if part == Some(LogsDir) {
        assert p[|a| - 1] == LogsDir;
        return false;
      }
      ancestor := Parent(a);
    }
    assert forall i :: 0 <= i < |p| ==> p[i] != LogsDir;
    return true;
  }

  /** A path whose last component is a generated artifact is never relevant. */
  lemma IgnoredNamesAreIrrelevant(p: Path)
    requires p != [] && p[|p| - 1] in {IndexPage, ContentsIndex}
    ensures !Relevant(p)
  {
  }

  /**
   * The filter in full: a path is rejected exactly when some component, the
   * last one included, is the logs directory, or its last component is a
   * generated artifact. In particular the empty path is relevant.
   */
  lemma RelevantIff(p: Path)
    ensures Relevant(p) <==>
      (forall i :: 0 <= i < |p| ==> p[i] != LogsDir) &&
      (p == [] || p[|p| - 1] !in {IndexPage, ContentsIndex})
  {
    if p != [] && !IsNormal(p[|p| - 1]) {
      assert p[|p| - 1] != IndexPage && p[|p| - 1] != ContentsIndex;
    }
  }
}
