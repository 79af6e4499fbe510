/**
 * The fallback import-path list the tool hands to the IDL parser: the
 * workspace roots named by the GOPATH environment value (or HOME/go when
 * GOPATH names none), each with "/src" appended, followed by the current
 * directory ".". Both environment values are parameters.
 */
module SearchPath {

  /** The separator of a path list on the Unix hosts the tool targets. */
  const ListSeparator: char := ':'

  /**
   * Splitting `s` at every occurrence of `sep`, keeping empty pieces,
   * as the host library's string split does: there is always at least one
   * piece and no piece contains the separator.
   */
  function Split(s: string, sep: char): (parts: seq<string>)
    ensures |parts| >= 1
    ensures forall i :: 0 <= i < |parts| ==> sep !in parts[i]
    decreases |s|
  {
    if s == [] then [""]
    else
      var rest := Split(s[1..], sep);
      if s[0] == sep then [""] + rest
      else [[s[0]] + rest[0]] + rest[1..]
  }

  /** The pieces written one after the other with `sep` between neighbours. */
  function Join(parts: seq<string>, sep: char): string
    decreases |parts|
  {
    if parts == [] then ""
    else if |parts| == 1 then parts[0]
    else parts[0] + [sep] + Join(parts[1..], sep)
  }

  /** Splitting loses nothing: joining the pieces again gives back the input. */
  lemma {:induction false} JoinSplit(s: string, sep: char)
    ensures Join(Split(s, sep), sep) == s
    decreases |s|
  {
    if s != [] {
      var rest := Split(s[1..], sep);
      JoinSplit(s[1..], sep);
      if s[0] == sep {
        assert Split(s, sep) == [""] + rest;
        assert ([""] + rest)[1..] == rest;
      } else {
        var parts := Split(s, sep);
        assert parts == [[s[0]] + rest[0]] + rest[1..];
        if |rest| > 1 {
          assert parts[1..] == rest[1..];
          assert Join(rest, sep) == rest[0] + [sep] + Join(rest[1..], sep);
        }
      }
    }
  }

  /**
   * The host library's path-list split: the empty list for the empty
   * string, otherwise the pieces between separators (empty pieces kept).
   */
  function SplitList(list: string): (dirs: seq<string>)
    ensures dirs == [] <==> list == ""
    ensures list != "" ==> Join(dirs, ListSeparator) == list
    ensures forall i :: 0 <= i < |dirs| ==> ListSeparator !in dirs[i]
  {
    if list == "" then []
    else
      JoinSplit(list, ListSeparator);
      Split(list, ListSeparator)
  }

  /** The workspace roots: those GOPATH lists, else HOME/go when HOME is set, else none. */
  function Roots(gopathEnv: string, home: string): seq<string>
  {
    var dirs := SplitList(gopathEnv);
    if dirs == [] && home != "" then [home + "/go"] else dirs
  }

  /** What `gopath()` returns: every root with "/src" appended, in order. */
  function GoPathDirs(gopathEnv: string, home: string): seq<string>
  {
    var roots := Roots(gopathEnv, home);
    seq(|roots|, i requires 0 <= i < |roots| => roots[i] + "/src")
  }

  /** The three shapes the source-directory list can take. */
  lemma GoPathCases(gopathEnv: string, home: string)
    ensures gopathEnv != "" ==>
      var dirs := SplitList(gopathEnv);
      |GoPathDirs(gopathEnv, home)| == |dirs| &&
      forall i :: 0 <= i < |dirs| ==> GoPathDirs(gopathEnv, home)[i] == dirs[i] + "/src"
    ensures gopathEnv == "" && home != "" ==> GoPathDirs(gopathEnv, home) == [home + "/go/src"]
    ensures gopathEnv == "" && home == "" ==> GoPathDirs(gopathEnv, home) == []
  {
    if gopathEnv == "" && home != "" {
      assert Roots(gopathEnv, home) == [home + "/go"];
      assert home + "/go" + "/src" == home + "/go/src";
    }
  }

  /**
   * `gopath()`: split GOPATH, fall back to HOME/go, then append "/src" to
   * every entry in place.
   */
  method GoPath(gopathEnv: string, home: string) returns (path: seq<string>)
    ensures path == GoPathDirs(gopathEnv, home)
  {
    var dirs := SplitList(gopathEnv);
    if |dirs| == 0 {
      if home != "" {
        dirs := [home + "/go"];
      }
    }
    assert dirs == Roots(gopathEnv, home);
    var a := new string[|dirs|](i requires 0 <= i < |dirs| => dirs[i]);
    for i := 0 to a.Length
      invariant forall j :: 0 <= j < i ==> a[j] == dirs[j] + "/src"
      invariant forall j :: i <= j < a.Length ==> a[j] == dirs[j]
    {
      a[i] := a[i] + "/src";
    }
    path := a[..];
  }

  /** The parser's import paths: the source directories, then "." last. */
  function ImportPaths(gopathEnv: string, home: string): (paths: seq<string>)
    ensures |paths| == |GoPathDirs(gopathEnv, home)| + 1
    ensures paths[..|paths| - 1] == GoPathDirs(gopathEnv, home)
    ensures paths[|paths| - 1] == "."
  {
    GoPathDirs(gopathEnv, home) + ["."]
  }
}
