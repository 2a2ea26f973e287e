/**
  A simplified stand-in for the parts of Rust's `std::path` that the copy
  command builder relies on: `Path::file_name`, `Path::join` and
  `Path::display`. Paths are plain strings and follow the Windows rules,
  because only the ROBOCOPY builder inspects paths: both '/' and '\' separate
  components and joining inserts '\'. A path is read as the sequence of its
  components: it is split at separators, and empty and "." segments are
  dropped (root, current-directory and empty segments never name a file).
*/
module Paths {
  import opened Wrappers
  import opened Seqs

  predicate IsSeparator(c: char) {
    c == '/' || c == '\\'
  }

  /** The separator that `Path::join` inserts on Windows. */
  const MainSeparator: char := '\\'

  predicate NoSeparator(s: string) {
    forall i :: 0 <= i < |s| ==> !IsSeparator(s[i])
  }

  /**
    A component of this stand-in: non-empty, free of separators, not ".".
    Unlike Rust's `Path::components`, no root, prefix or current-directory
    component is reported; none of them can be a file name.
  */
  predicate IsComponent(s: string) {
    s != [] && s != "." && NoSeparator(s)
  }

  /** A component that can be a file name: anything but the parent directory "..". */
  predicate IsNormal(s: string) {
    IsComponent(s) && s != ".."
  }

  /** The components a separator-free segment contributes: none if it is empty or ".". */
  function Segment(s: string): (parts: seq<string>)
    requires NoSeparator(s)
    ensures forall k :: 0 <= k < |parts| ==> IsComponent(parts[k])
  {
    if s == [] || s == "." then [] else [s]
  }

  /**
    The components of `p` read left to right, where `pending` holds the
    characters of the current segment read so far.
  */
  function Split(p: string, pending: string): (parts: seq<string>)
    requires NoSeparator(pending)
    ensures forall k :: 0 <= k < |parts| ==> IsComponent(parts[k])
    decreases |p|
  {
    if p == [] then Segment(pending)
    else if IsSeparator(p[0]) then Segment(pending) + Split(p[1..], [])
    else Split(p[1..], pending + [p[0]])
  }

  /** The components of `p`, front to back. */
  function Components(p: string): (parts: seq<string>)
    ensures forall k :: 0 <= k < |parts| ==> IsComponent(parts[k])
  {
    Split(p, [])
  }

  /**
    `Path::file_name`: the final component, or None when the path has no
    component or ends in "..".
  */
  function FileName(p: string): (r: Option<string>)
    ensures r.Some? ==> IsNormal(r.value)
  {
    var parts := Components(p);
    if parts == [] || Last(parts) == ".." then None else Some(Last(parts))
  }

  /** `PathBuf::push` adds a separator only after a non-empty path that does not already end in one. */
  predicate NeedsSeparator(base: string) {
    base != [] && !IsSeparator(Last(base))
  }

  /** `Path::join` of a base path and a single relative component. */
  function Join(base: string, name: string): (r: string)
    ensures |r| == |base| + |name| + (if NeedsSeparator(base) then 1 else 0)
    ensures r[..|base|] == base
    ensures r[|r| - |name|..] == name
    ensures NeedsSeparator(base) ==> r[|base|] == MainSeparator
  {
    if NeedsSeparator(base) then base + [MainSeparator] + name else base + name
  }

  /**
    `Path::display().to_string()` of an optional path buffer, as done by
    `get_string_from_buffer`: the path itself, or the empty string for None.
  */
  function StringFromBuffer(buffer: Option<string>): (r: string)
    ensures buffer.None? ==> r == ""
    ensures buffer.Some? ==> r == buffer.value
  {
    match buffer
    case Some(path) => path
    case None => ""
  }

  /** A separator ends the pending segment; what follows is split afresh. */
  lemma {:induction false} SplitAroundSeparator(a: string, c: char, b: string, pending: string)
    requires IsSeparator(c) && NoSeparator(pending)
    ensures Split(a + [c] + b, pending) == Split(a, pending) + Split(b, [])
    decreases |a|
  {
    var p := a + [c] + b;
    if a == [] {
      assert p[1..] == b;
    } else {
      assert p[0] == a[0];
      assert p[1..] == a[1..] + [c] + b;
      if IsSeparator(a[0]) {
        SplitAroundSeparator(a[1..], c, b, []);
      } else {
        SplitAroundSeparator(a[1..], c, b, pending + [a[0]]);
      }
    }
  }

  /** Without separators, the rest of the path just extends the pending segment. */
  lemma {:induction false} SplitSegment(s: string, pending: string)
    requires NoSeparator(s) && NoSeparator(pending)
    ensures Split(s, pending) == Segment(pending + s)
    decreases |s|
  {
    if s == [] {
      assert pending + s == pending;
    } else {
      assert (pending + [s[0]]) + s[1..] == pending + s;
      SplitSegment(s[1..], pending + [s[0]]);
    }
  }

  /** A separator splits a path into two independent runs of components. */
  lemma ComponentsAroundSeparator(a: string, c: char, b: string)
    requires IsSeparator(c)
    ensures Components(a + [c] + b) == Components(a) + Components(b)
  {
    SplitAroundSeparator(a, c, b, []);
  }

  /** A single component is its own decomposition. */
  lemma ComponentsOfComponent(name: string)
    requires IsComponent(name)
    ensures Components(name) == [name]
  {
    SplitSegment(name, []);
    assert [] + name == name;
  }

  /** Joining a component appends exactly that component to the base path. */
  lemma ComponentsOfJoin(base: string, name: string)
    requires IsComponent(name)
    ensures Components(Join(base, name)) == Components(base) + [name]
  {
    ComponentsOfComponent(name);
    if NeedsSeparator(base) {
      ComponentsAroundSeparator(base, MainSeparator, name);
    } else if base == [] {
      assert Join(base, name) == name;
    } else {
      var init := base[..|base| - 1];
      var c := Last(base);
      assert base == init + [c] + [];
      ComponentsAroundSeparator(init, c, []);
      assert Join(base, name) == init + [c] + name;
      ComponentsAroundSeparator(init, c, name);
    }
  }

  /** The file name of a joined path is the name that was joined. */
  lemma FileNameOfJoin(base: string, name: string)
    requires IsNormal(name)
    ensures FileName(Join(base, name)) == Some(name)
  {
    ComponentsOfJoin(base, name);
  }

  /** Whatever separator precedes it, a final normal component is the file name. */
  lemma FileNameAfterSeparator(dir: string, c: char, name: string)
    requires IsSeparator(c) && IsNormal(name)
    ensures FileName(dir + [c] + name) == Some(name)
  {
    ComponentsAroundSeparator(dir, c, name);
    ComponentsOfComponent(name);
  }

  /** A trailing separator does not change the file name. */
  lemma FileNameIgnoresTrailingSeparator(p: string, c: char)
    requires IsSeparator(c)
    ensures FileName(p + [c]) == FileName(p)
  {
    assert p + [c] == p + [c] + [];
    ComponentsAroundSeparator(p, c, []);
  }

  /** A path ending in ".." has no file name. */
  lemma FileNameOfParent(base: string)
    ensures FileName(Join(base, "..")) == None
  {
    ComponentsOfJoin(base, "..");
  }

  /** A path made of separators only (a root) has no file name. */
  lemma {:induction false} FileNameOfRoot(p: string)
    requires forall i :: 0 <= i < |p| ==> IsSeparator(p[i])
    ensures Components(p) == []
    ensures FileName(p) == None
    decreases |p|
  {
    if p != [] {
      assert p == [] + [p[0]] + p[1..];
      ComponentsAroundSeparator([], p[0], p[1..]);
      FileNameOfRoot(p[1..]);
    }
  }
}
