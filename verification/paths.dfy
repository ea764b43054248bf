/** Lexical path handling as Go's `path/filepath` does it on a Unix host:
    `Clean` (drop empty and `.` elements, resolve `..` against the element
    before it, keep leading `..` of a relative path, drop `..` at the root)
    and `Join` of a directory with one name, which cleans the result. */
module Paths {
  import opened Strings

  /** No element of a cleaned stack is empty, `.`, or contains a separator. */
  predicate Tidy(stack: seq<string>) {
    forall i :: 0 <= i < |stack| ==> stack[i] != "" && stack[i] != "." && '/' !in stack[i]
  }

  /** Processes one path element against the elements kept so far. */
  function Push(stack: seq<string>, elem: string, rooted: bool): (r: seq<string>)
    requires Tidy(stack) && '/' !in elem
    ensures Tidy(r)
  {
    if elem == "" || elem == "." then stack
    else if elem == ".." then
      if |stack| > 0 && Last(stack) != ".." then stack[..|stack| - 1]
      else if rooted then stack
      else stack + [".."]
    else stack + [elem]
  }

  /** Processes the elements left to right. */
  function Reduce(elems: seq<string>, rooted: bool, stack: seq<string>): (r: seq<string>)
    requires Tidy(stack)
    requires forall i :: 0 <= i < |elems| ==> '/' !in elems[i]
    ensures Tidy(r)
    decreases |elems|
  {
    if |elems| == 0 then stack
    else Reduce(elems[1..], rooted, Push(stack, elems[0], rooted))
  }

  function Render(rooted: bool, stack: seq<string>): string {
    if rooted then "/" + Join(stack, "/")
    else if |stack| == 0 then "."
    else Join(stack, "/")
  }

  /** `path.Clean`: the shortest lexically equivalent path; `.` for the empty path. */
  function Clean(path: string): (r: string)
    ensures r != ""
  {
    if path == "" then "."
    else
      var rooted := path[0] == '/';
      var stack := Reduce(Split(path, '/'), rooted, []);
      assert Render(rooted, stack) != "" by {
        if !rooted && |stack| > 0 {
          JoinOfTidyIsNonEmpty(stack);
        }
      }
      Render(rooted, stack)
  }

  /** `filepath.Join(dir, name)`: empty arguments are skipped, and the joined
      path is cleaned. */
  function JoinPath(dir: string, name: string): string {
    if dir != "" then Clean(dir + "/" + name)
    else if name != "" then Clean(name)
    else ""
  }

  /** A single path element that `Clean` keeps as it is. */
  predicate SimpleName(name: string) {
    name != "" && name != "." && name != ".." && '/' !in name
  }

  /** What joining a simple name to `dir` puts in front of that name. */
  function DirPrefix(dir: string): string {
    PrefixOf(Clean(dir))
  }

  function PrefixOf(cleaned: string): string {
    if cleaned == "." then "" else if cleaned == "/" then "/" else cleaned + "/"
  }

  lemma JoinOfTidyIsNonEmpty(stack: seq<string>)
    requires Tidy(stack) && |stack| > 0
    ensures Join(stack, "/") != ""
    ensures Join(stack, "/") != "."
    ensures Join(stack, "/") != "/"
  {
    if |stack| > 1 {
      assert |Join(stack, "/")| >= |stack[0]| + 1 + |Join(stack[1..], "/")|;
      JoinOfTidyIsNonEmpty(stack[1..]);
    }
  }

  lemma {:induction false} ReduceSnoc(elems: seq<string>, x: string, rooted: bool, stack: seq<string>)
    requires Tidy(stack) && '/' !in x
    requires forall i :: 0 <= i < |elems| ==> '/' !in elems[i]
    ensures Reduce(elems + [x], rooted, stack) == Push(Reduce(elems, rooted, stack), x, rooted)
    decreases |elems|
  {
    if |elems| == 0 {
      assert elems + [x] == [x];
    } else {
      assert (elems + [x])[1..] == elems[1..] + [x];
      assert elems[0] == (elems + [x])[0];
      ReduceSnoc(elems[1..], x, rooted, Push(stack, elems[0], rooted));
    }
  }

  lemma RenderSnoc(rooted: bool, stack: seq<string>, name: string)
    requires Tidy(stack) && SimpleName(name)
    ensures Render(rooted, stack + [name]) == PrefixOf(Render(rooted, stack)) + name
  {
    if |stack| > 0 {
      JoinSnoc(stack, name, "/");
      JoinOfTidyIsNonEmpty(stack);
      if rooted {
        assert Render(rooted, stack) != "/" by { assert |Render(rooted, stack)| > 1; }
        assert Render(rooted, stack) != "." by { assert Render(rooted, stack)[0] == '/'; }
      }
    } else {
      assert stack + [name] == [name];
      assert Join([name], "/") == name;
      assert Join(stack, "/") == "";
      assert "/" + "" == "/";
    }
  }

  /** Joining a simple name appends it to the cleaned directory. */
  lemma JoinSimpleName(dir: string, name: string)
    requires SimpleName(name)
    ensures JoinPath(dir, name) == DirPrefix(dir) + name
  {
    SplitWithoutSeparator(name, '/');
    assert name[0] != '/' by { assert name[0] in name; }
    if dir == "" {
      assert Reduce([name], false, []) == [name];
    } else {
      var path := dir + "/" + name;
      var rooted := dir[0] == '/';
      assert path[0] == dir[0];
      assert path == dir + ['/'] + name;
      SplitConcat(dir, name, '/');
      var stack := Reduce(Split(dir, '/'), rooted, []);
      ReduceSnoc(Split(dir, '/'), name, rooted, []);
      assert Reduce(Split(path, '/'), rooted, []) == stack + [name];
      RenderSnoc(rooted, stack, name);
    }
  }

  /** The shape `Reduce` leaves a stack in: tidy, with every `..` at the
      front and none at all below the root. */
  predicate Canonical(stack: seq<string>, rooted: bool) {
    Tidy(stack) &&
    forall j :: 0 <= j < |stack| && stack[j] == ".." ==>
      !rooted && forall i :: 0 <= i < j ==> stack[i] == ".."
  }

  lemma PushCanonical(stack: seq<string>, elem: string, rooted: bool)
    requires Canonical(stack, rooted) && '/' !in elem
    ensures Canonical(Push(stack, elem, rooted), rooted)
  {
    if elem == ".." && !(|stack| > 0 && Last(stack) != "..") && !rooted {
      assert forall i :: 0 <= i < |stack| ==> stack[i] == ".." by {
        if |stack| > 0 {
          assert stack[|stack| - 1] == "..";
        }
      }
    }
  }

  lemma {:induction false} ReduceCanonical(elems: seq<string>, rooted: bool, stack: seq<string>)
    requires Canonical(stack, rooted)
    requires forall i :: 0 <= i < |elems| ==> '/' !in elems[i]
    ensures Canonical(Reduce(elems, rooted, stack), rooted)
    decreases |elems|
  {
    if |elems| > 0 {
      PushCanonical(stack, elems[0], rooted);
      ReduceCanonical(elems[1..], rooted, Push(stack, elems[0], rooted));
    }
  }

  /** Reducing the elements of a canonical stack rebuilds it unchanged. */
  lemma {:induction false} ReduceKeepsCanonical(elems: seq<string>, rooted: bool, acc: seq<string>)
    requires Canonical(acc + elems, rooted)
    requires Tidy(acc) && forall i :: 0 <= i < |elems| ==> '/' !in elems[i]
    ensures Reduce(elems, rooted, acc) == acc + elems
    decreases |elems|
  {
    var all := acc + elems;
    if |elems| > 0 {
      var x := elems[0];
      assert x == all[|acc|];
      assert Tidy(acc + [x]) by {
        forall i | 0 <= i < |acc| + 1 ensures (acc + [x])[i] != "" && (acc + [x])[i] != "." && '/' !in (acc + [x])[i] {
          assert (acc + [x])[i] == all[i];
        }
      }
      assert Push(acc, x, rooted) == acc + [x] by {
        if x == ".." && |acc| > 0 {
          assert acc[|acc| - 1] == all[|acc| - 1];
        }
      }
      assert acc + [x] + elems[1..] == all;
      ReduceKeepsCanonical(elems[1..], rooted, acc + [x]);
    } else {
      assert acc + elems == acc;
    }
  }

  /** Cleaning is idempotent: a cleaned path is already clean. */
  lemma CleanIdempotent(path: string)
    ensures Clean(Clean(path)) == Clean(path)
  {
    var r := Clean(path);
    if path != "" {
      var rooted := path[0] == '/';
      var elems := Split(path, '/');
      ReduceCanonical(elems, rooted, []);
      var stack := Reduce(elems, rooted, []);
      assert r == Render(rooted, stack);
      assert forall i :: 0 <= i < |stack| ==> '/' !in stack[i];
      ReduceKeepsCanonical(stack, rooted, []);
      assert [] + stack == stack;
      if rooted && |stack| == 0 {
        assert r == Join(["", ""], "/");
        SplitJoin(["", ""], '/');
        assert Reduce(["", ""], true, []) == [];
      } else if rooted {
        var parts := [""] + stack;
        assert parts[1..] == stack;
        assert r == Join(parts, "/");
        SplitJoin(parts, '/');
        assert r[0] == '/';
        assert Reduce(parts, rooted, []) == Reduce(stack, rooted, []) by {
          assert parts[0] == "" && parts[1..] == stack;
        }
      } else if |stack| == 0 {
        SplitWithoutSeparator(".", '/');
        assert Reduce(["."], false, []) == [];
      } else {
        JoinOfTidyIsNonEmpty(stack);
        SplitJoin(stack, '/');
        assert r[0] != '/' by {
          assert stack[0] != "" && '/' !in stack[0];
          if |stack| > 1 {
            assert r == stack[0] + "/" + Join(stack[1..], "/");
          }
          assert r[0] == stack[0][0];
        }
      }
    }
  }
}
