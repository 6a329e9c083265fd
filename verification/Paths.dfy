/**
 Lexical paths, as path/filepath computes Base, Dir and Clean on a system with `/` separators. A
 path string is held as its pieces between slashes: "" is [""], "/" is ["", ""], "a/b" is ["a", "b"].
 */
module Paths {

  type Path = p: seq<string> | |p| >= 1 witness [""]

  const EMPTY_PATH: Path := [""]
  const ROOT: Path := ["", ""]
  const DOT: Path := ["."]

  function Last<T>(s: seq<T>): T
    requires s != []
  {
    s[|s| - 1]
  }

  function Front<T>(s: seq<T>): seq<T>
    requires s != []
  {
    s[..|s| - 1]
  }

  /** Trailing slashes off. */
  function TrimSlashes(p: Path): Path
    decreases |p|
  {
    if |p| > 1 && Last(p) == "" then TrimSlashes(Front(p)) else p
  }

  function Base(p: Path): string {
    if p == EMPTY_PATH then "."
    else if Last(TrimSlashes(p)) == "" then "/"
    else Last(TrimSlashes(p))
  }

  /** The base is the last component that is not empty; a path without any is `.` or, with a slash, `/`. */
  lemma {:induction false} BaseExactly(p: Path) returns (i: int)
    ensures -1 <= i < |p| && forall k :: i < k < |p| ==> p[k] == ""
    ensures i >= 0 ==> p[i] != "" && Base(p) == p[i]
    ensures i == -1 ==> Base(p) == if |p| == 1 then "." else "/"
    decreases |p|
  {
    if |p| > 1 && Last(p) == "" {
      i := BaseExactly(Front(p));
      assert TrimSlashes(p) == TrimSlashes(Front(p));
      forall k | i < k < |p| ensures p[k] == "" {
        if k < |p| - 1 {
          assert p[k] == Front(p)[k];
        }
      }
    } else if Last(p) == "" {
      i := -1;
    } else {
      i := |p| - 1;
    }
  }

  predicate Rooted(p: Path) {
    |p| > 1 && p[0] == ""
  }

  /** Takes the pieces of rest one by one: `.` and empty pieces go, `..` takes one piece off. */
  function Resolve(stack: seq<string>, rest: seq<string>, rooted: bool): seq<string>
    decreases |rest|
  {
    if rest == [] then stack
    else if rest[0] == "" || rest[0] == "." then Resolve(stack, rest[1..], rooted)
    else if rest[0] == ".." then
      if stack != [] && Last(stack) != ".." then Resolve(Front(stack), rest[1..], rooted)
      else if rooted then Resolve(stack, rest[1..], rooted)
      else Resolve(stack + [".."], rest[1..], rooted)
    else Resolve(stack + [rest[0]], rest[1..], rooted)
  }

  function Render(rooted: bool, comps: seq<string>): Path {
    if rooted then if comps == [] then ROOT else [""] + comps
    else if comps == [] then DOT
    else comps
  }

  function Components(p: Path): seq<string> {
    Resolve([], p, Rooted(p))
  }

  function Clean(p: Path): Path {
    Render(Rooted(p), Components(p))
  }

  /** Everything up to the last slash. */
  function DirPart(p: Path): Path {
    if |p| == 1 then EMPTY_PATH else Front(p) + [""]
  }

  function Dir(p: Path): Path {
    Clean(DirPart(p))
  }

  // ------------------------------------------------------------- clean paths

  predicate IsClean(rooted: bool, comps: seq<string>) {
    && (forall i :: 0 <= i < |comps| ==> comps[i] != "" && comps[i] != ".")
    && (forall i :: 0 <= i < |comps| && comps[i] == ".." ==> !rooted && (i == 0 || comps[i - 1] == ".."))
  }

  lemma {:induction false} ResolveIsClean(stack: seq<string>, rest: seq<string>, rooted: bool)
    requires IsClean(rooted, stack)
    ensures IsClean(rooted, Resolve(stack, rest, rooted))
    ensures |Resolve(stack, rest, rooted)| <= |stack| + |rest|
    decreases |rest|
  {
    if rest != [] {
      if rest[0] == "" || rest[0] == "." {
        ResolveIsClean(stack, rest[1..], rooted);
      } else if rest[0] == ".." {
        if stack != [] && Last(stack) != ".." {
          ResolveIsClean(Front(stack), rest[1..], rooted);
        } else if rooted {
          ResolveIsClean(stack, rest[1..], rooted);
        } else {
          ResolveIsClean(stack + [".."], rest[1..], rooted);
        }
      } else {
        ResolveIsClean(stack + [rest[0]], rest[1..], rooted);
      }
    }
  }

  lemma {:induction false} ResolveKeepsClean(stack: seq<string>, rest: seq<string>, rooted: bool, tail: seq<string>)
    requires IsClean(rooted, stack + rest)
    requires tail == [] || tail == [""]
    ensures Resolve(stack, rest + tail, rooted) == stack + rest
    decreases |rest|
  {
    if rest == [] {
      assert stack + rest == stack;
      if tail != [] {
        assert (rest + tail)[1..] == [];
      } else {
        assert rest + tail == [];
      }
    } else {
      var all := stack + rest;
      assert all[|stack|] == rest[0];
      assert (rest + tail)[0] == rest[0] && (rest + tail)[1..] == rest[1..] + tail;
      assert stack + [rest[0]] + rest[1..] == all;
      if rest[0] == ".." && stack != [] {
        assert all[|stack| - 1] == Last(stack);
      }
      ResolveKeepsClean(stack + [rest[0]], rest[1..], rooted, tail);
    }
  }

  lemma CleanDropsLast(rooted: bool, comps: seq<string>)
    requires IsClean(rooted, comps) && comps != []
    ensures IsClean(rooted, Front(comps))
  {
  }

  lemma BaseOfClean(rooted: bool, comps: seq<string>)
    requires IsClean(rooted, comps) && comps != []
    ensures Base(Render(rooted, comps)) == Last(comps)
  {
    assert Last(Render(rooted, comps)) == Last(comps);
  }

  /** Dir of a clean path takes one component off. */
  lemma DirOfClean(rooted: bool, comps: seq<string>)
    requires IsClean(rooted, comps) && comps != []
    ensures Dir(Render(rooted, comps)) == Render(rooted, Front(comps))
  {
    var p := Render(rooted, comps);
    var front := Front(comps);
    CleanDropsLast(rooted, comps);
    assert [] + front == front;
    if rooted {
      var d := DirPart(p);
      assert d == [""] + front + [""];
      assert d[1..] == front + [""];
      ResolveKeepsClean([], front, rooted, [""]);
    } else if |comps| == 1 {
      assert Resolve([], [""], false) == [];
    } else {
      assert DirPart(p) == front + [""];
      assert (front + [""])[0] == front[0];
      ResolveKeepsClean([], front, rooted, [""]);
    }
  }
}
