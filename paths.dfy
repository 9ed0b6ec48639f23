/** The path and listing helpers of embedly/utils.py: `quick_dir`, which
    normalises a directory path and creates a sub-directory, and `list_files`,
    which drops the macOS `.DS_Store` entry from a directory listing. The file
    system is reduced to the set of paths that exist. */
module Paths {
  import opened Outcomes

  const Separator: char := '/'
  const DsStore: string := ".DS_Store"

  /** IndexError from `path[-1]` on an empty path. */
  datatype PathError = EmptyPath

  predicate EndsWithSeparator(s: string)
  {
    |s| > 0 && s[|s| - 1] == Separator
  }

  /** `path`, with a `/` appended unless it already ends in one. */
  function WithSeparator(path: string): (r: string)
    requires |path| > 0
  {
    if path[|path| - 1] != Separator then path + [Separator] else path
  }

  /** The path `quick_dir` returns: `path` and the folder, joined by exactly
      one `/` and ended by one; an empty path raises. */
  function QuickDirPath(path: string, folderName: string): (r: Result<string, PathError>)
    ensures r.Err? <==> |path| == 0
    ensures EndsWithSeparator(path) ==> r == Ok(path + folderName + "/")
    ensures |path| > 0 && !EndsWithSeparator(path) ==> r == Ok(path + "/" + folderName + "/")
    ensures r.Ok? ==> EndsWithSeparator(r.value) && r.value[..|path|] == path
  {
    if |path| == 0 then Err(EmptyPath) else Ok(WithSeparator(path) + folderName + [Separator])
  }

  /** Nesting: a folder inside a `quick_dir` result is appended directly,
      because that result already ends in `/`. */
  lemma QuickDirNests(path: string, outer: string, inner: string)
    requires |path| > 0
    ensures var dir := QuickDirPath(path, outer).value;
      QuickDirPath(dir, inner) == Ok(dir + inner + "/")
  {
  }

  /** The listing with its first occurrence of `x` removed: the reference
      definition of Python's `list.remove` after a successful `in` test. The
      length drops by one exactly when `x` was present, and the entries that
      remain are the old ones less one `x`. */
  function RemoveFirst(s: seq<string>, x: string): (r: seq<string>)
    ensures |r| == if x in s then |s| - 1 else |s|
    ensures multiset(r) == multiset(s) - multiset{x}
    decreases |s|
  {
    if s == [] then []
    else if s[0] == x then
      assert s == [s[0]] + s[1..];
      s[1..]
    else
      assert s == [s[0]] + s[1..];
      assert x in s <==> x in s[1..];
      [s[0]] + RemoveFirst(s[1..], x)
  }

  /** Removing the first `x` found at index `k` (or nothing, when the scan
      reached the end) keeps the other entries in their order. */
  lemma {:induction false} RemoveFirstAt(s: seq<string>, x: string, k: nat)
    requires k <= |s| && (forall j :: 0 <= j < k ==> s[j] != x) && (k < |s| ==> s[k] == x)
    ensures RemoveFirst(s, x) == if k < |s| then s[..k] + s[k + 1..] else s
    decreases k
  {
    if s == [] {
    } else if k == 0 {
    } else {
      RemoveFirstAt(s[1..], x, k - 1);
      ConsSplit(s, k);
    }
  }

  lemma ConsSplit(s: seq<string>, k: nat)
    requires 0 < k <= |s|
    ensures k < |s| ==> [s[0]] + (s[1..][..k - 1] + s[1..][k..]) == s[..k] + s[k + 1..]
    ensures [s[0]] + s[1..] == s
  {
    if k < |s| {
      assert [s[0]] + s[1..][..k - 1] == s[..k];
    }
  }

  /** A directory listing names each entry once, so after the removal
      `.DS_Store` is gone. */
  lemma {:induction false} RemoveFirstOfDistinct(s: seq<string>, x: string)
    requires forall i, j :: 0 <= i < j < |s| ==> s[i] != s[j]
    ensures x !in RemoveFirst(s, x)
    decreases |s|
  {
    if s != [] && s[0] != x {
      RemoveFirstOfDistinct(s[1..], x);
    } else if s != [] {
      assert forall i :: 1 <= i < |s| ==> s[i] != s[0];
    }
  }

  /** `list_files` on a directory whose listing is `listing`: scan for
      `.DS_Store` and remove the first one found. */
  method ListFiles(listing: seq<string>) returns (files: seq<string>)
    ensures files == RemoveFirst(listing, DsStore)
    ensures DsStore in listing ==> |files| == |listing| - 1
    ensures DsStore !in listing ==> files == listing
  {
    files := listing;
    var i := 0;
    while i < |files| && files[i] != DsStore
      invariant 0 <= i <= |files|
      invariant forall j :: 0 <= j < i ==> files[j] != DsStore
    {
      i := i + 1;
    }
    RemoveFirstAt(listing, DsStore, i);
    if i < |files| {
      files := files[..i] + files[i + 1..];
    }
  }

  /** The part of the file system `quick_dir` looks at: the paths that exist. */
  class FileSystem {
    var existing: set<string>

    constructor (paths: set<string>)
      ensures existing == paths
    {
      existing := paths;
    }

    /** `quick_dir(path, folder_name)`: makes sure `path` ends in `/`, creates
        the folder under it when it does not exist, and returns the folder's
        path with a trailing `/`. An empty path raises before anything is
        created. */
    method QuickDir(path: string, folderName: string) returns (r: Result<string, PathError>)
      modifies this
      ensures r == QuickDirPath(path, folderName)
      ensures r.Ok? ==> existing == old(existing) + {WithSeparator(path) + folderName}
      ensures r.Err? ==> existing == old(existing)
    {
      if |path| == 0 {
        return Err(EmptyPath);
      }
      var base := path;
      if base[|base| - 1] != Separator {
        base := base + [Separator];
      }
      if base + folderName !in existing {
        existing := existing + {base + folderName};
      }
      r := Ok(base + folderName + [Separator]);
    }
  }
}
